/** The imperative parser of src/acl.c. The global `Parser P` (the cached token
    `cur` and the flag `have_cur`) becomes an object over a Lexer; the ghost
    field toks is the token stream still to come, and every method is
    proved to consume it exactly as the functions of Grammar say. */
module Parsing {
  import opened Tokens
  import opened LexerSpec
  import opened Lexing
  import opened Ast
  import opened Grammar

  /** r is what the specification `spec` computes, and `rest` the stream it leaves */
  predicate Follows<T(==)>(r: Result<T>, spec: Result<(T, seq<Token>)>, rest: seq<Token>) {
    match spec
    case Ok(p) => r == Ok(p.0) && rest == p.1
    case Err(e) => r == Err(e)
  }

  class Parser {
    const lex: Lexer
    var cur: Token
    var haveCur: bool

    /** The tokens still to come: the cached token, then those the lexer returns */
    ghost var toks: seq<Token>

    ghost predicate Valid()
      reads this, lex
    {
      && lex.Valid()
      && (haveCur && cur.EOF? ==> lex.rest == [EOF])
      && toks == (if haveCur && !cur.EOF? then [cur] + lex.rest else lex.rest)
      && toks != [] && toks[|toks| - 1] == EOF
      && (haveCur ==> toks[0] == cur)
    }

    /** main's set-up: the whole text, the cursor at its start, no cached token */
    constructor (text: seq<char>)
      ensures Valid() && fresh(lex) && !haveCur
      ensures lex.src == text && toks == Tokenize(text)
    {
      var l := new Lexer(text);
      lex := l;
      cur := EOF;
      haveCur := false;
      toks := l.rest;
    }

    /** advance */
    method Advance()
      requires Valid()
      modifies this, lex
      ensures Valid() && haveCur
      ensures !old(haveCur) ==> toks == old(toks)
      ensures old(haveCur) && !old(cur).EOF? ==> toks == old(toks)[1..]
      ensures old(haveCur) && old(cur).EOF? ==> toks == old(toks) == [EOF]
    {
      // once the cached token is dropped, the stream is what the lexer has left
      assert haveCur && !cur.EOF? ==> toks[1..] == lex.rest;
      toks := lex.rest;
      if haveCur {
        haveCur := false;
      }
      ghost var r0 := lex.rest;
      cur := lex.NextToken();
      haveCur := true;
      assert !cur.EOF? ==> r0 == [cur] + lex.rest;
    }

    /** accept: whether the current token has kind k; nothing is consumed */
    method Accept(k: Kind) returns (b: bool)
      requires Valid()
      modifies this, lex
      ensures Valid() && haveCur && toks == old(toks)
      ensures b == (KindOf(Peek(toks)) == k)
    {
      if !haveCur {
        Advance();
      }
      return KindOf(cur) == k;
    }

    /** expect: nothing is consumed; a current token of another kind is the
        error at which the source exits */
    method Expect(k: Kind) returns (err: Option<ParseError>)
      requires Valid()
      modifies this, lex
      ensures Valid() && haveCur && toks == old(toks)
      ensures KindOf(Peek(toks)) == k ==> err == None
      ensures KindOf(Peek(toks)) != k ==> err == Some(ExpectedToken(k, KindOf(Peek(toks))))
    {
      if !haveCur {
        Advance();
      }
      if KindOf(cur) == k {
        return None;
      }
      return Some(ExpectedToken(k, KindOf(cur)));
    }

    /** The source's `expect(k, msg); advance();`: on success the token of kind
        k is consumed; otherwise nothing is, and the error is expect's */
    method Consume(k: Kind) returns (err: Option<ParseError>)
      requires Valid() && k != KEof
      modifies this, lex
      ensures Valid()
      ensures err.None? <==> KindOf(Peek(old(toks))) == k
      ensures err.None? ==> toks == old(toks)[1..]
      ensures err.Some? ==> err == Some(ExpectedToken(k, KindOf(Peek(old(toks))))) && toks == old(toks)
    {
      err := Expect(k);
      if err.None? {
        Advance();
      }
    }

    /** parse_literal_expr */
    method ParseLiteralExpr() returns (r: Result<Value>)
      requires Valid()
      modifies this, lex
      ensures Valid() && Follows(r, ParseLiteral(old(toks)), toks)
    {
      if !haveCur {
        Advance();
      }
      var tk := cur;
      if tk.Int? {
        var v := VInt(tk.ival);
        Advance();
        return Ok(v);
      } else if tk.Bool? {
        var v := VBool(tk.bval);
        Advance();
        return Ok(v);
      } else if tk.Str? {
        var v := VString(CString(tk.text));
        Advance();
        return Ok(v);
      } else if tk.Char? {
        var v := VChar(tk.cval);
        Advance();
        return Ok(v);
      }
      return Err(ExpectedLiteral(KindOf(tk)));
    }

    /** parse_field; with typeExpected the current token is the type keyword */
    method ParseField(typeExpected: bool) returns (r: Result<Field>)
      requires Valid() && (typeExpected ==> haveCur)
      modifies this, lex
      ensures Valid() && Follows(r, ParseFieldSpec(old(toks), typeExpected), toks)
    {
      var ftype: Option<TypeTag> := None;
      if typeExpected {
        if cur.TypeInt? {
          ftype := Some(TInt);
        } else if cur.TypeFloat? {
          ftype := Some(TFloat);
        } else if cur.TypeBool? {
          ftype := Some(TBool);
        } else if cur.TypeString? {
          ftype := Some(TString);
        } else {
          return Err(BadTypeToken);
        }
        Advance();
      }
      if !haveCur {
        Advance();
      }
      r := ParseFieldName(ftype);
    }

    /** parse_field after the type: the field name, then the rest */
    method ParseFieldName(ftype: Option<TypeTag>) returns (r: Result<Field>)
      requires Valid() && haveCur
      modifies this, lex
      ensures Valid() && Follows(r, ParseNamedField(old(toks), ftype), toks)
    {
      if !cur.Ident? {
        return Err(ExpectedFieldName);
      }
      var name := cur.text;
      Advance();
      r := ParseFieldEq(ftype, name);
    }

    /** parse_field after the name: `expect(TK_EQ, ...); advance();`, then the value */
    method ParseFieldEq(ftype: Option<TypeTag>, name: string) returns (r: Result<Field>)
      requires Valid()
      modifies this, lex
      ensures Valid() && Follows(r, Grammar.ParseFieldEq(old(toks), ftype, name), toks)
    {
      var err := Consume(KEq);
      if err.Some? {
        return Err(err.value);
      }
      r := ParseFieldRest(ftype, name);
    }

    /** parse_field after '=': the literal and ';' */
    method ParseFieldRest(ftype: Option<TypeTag>, name: string) returns (r: Result<Field>)
      requires Valid()
      modifies this, lex
      ensures Valid() && Follows(r, ParseFieldValue(old(toks), ftype, name), toks)
    {
      var v :- ParseLiteralExpr();
      ghost var rest := toks;
      FieldValueEnd(old(toks), ftype, name, v, rest);
      var err := Consume(KSemi);
      if err.Some? {
        return Err(err.value);
      }
      return Ok(Field(ftype, name, v));
    }

    /** The lookahead inside a block body (the current token is an identifier):
        save the cursor and the current token, look at the next one or two
        tokens, then put both back */
    method LooksLikeChildBlock() returns (isChild: bool)
      requires Valid() && haveCur && cur.Ident?
      modifies this, lex
      ensures Valid() && lex.pos == old(lex.pos) && cur == old(cur) && haveCur == old(haveCur) && toks == old(toks)
      ensures isChild == StartsChildBlock(old(toks))
    {
      var savePos := lex.pos;
      var saveCur := cur;
      var haveSave := haveCur;
      ghost var saveToks, saveRest := toks, lex.rest;

      Advance();
      isChild := false;
      if cur.Str? {
        Advance();
        if cur.LBrace? {
          isChild := true;
        }
      } else if cur.LBrace? {
        isChild := true;
      }

      haveCur := haveSave;
      lex.pos := savePos;
      lex.rest := saveRest;
      cur := saveCur;
      toks := saveToks;
    }

    /** parse_block_recursive: the block name, then the rest of the block.
        `parent` is the path of the enclosing block (the source's parent
        link), `at` the path the new block will have. */
    method ParseBlockRecursive(parent: Option<Path>, at: Path) returns (r: Result<Block>)
      requires Valid()
      modifies this, lex
      ensures Valid() && Follows(r, ParseBlockSpec(old(toks), parent, at), toks)
      decreases |toks|, 1
    {
      if !haveCur {
        Advance();
      }
      if !cur.Ident? {
        return Err(ExpectedBlockName);
      }
      var name := cur.text;
      Advance();
      r := ParseBlockAfterName(name, parent, at);
    }

    /** parse_block_recursive after the name: the optional label, then the body */
    method ParseBlockAfterName(name: string, parent: Option<Path>, at: Path) returns (r: Result<Block>)
      requires Valid() && haveCur
      modifies this, lex
      ensures Valid() && Follows(r, ParseBlockTail(old(toks), name, parent, at), toks)
      decreases |toks|, 1
    {
      var blockLabel: Option<string> := None;
      if cur.Str? {
        blockLabel := Some(CString(cur.text));
        Advance();
      }
      var blk := MakeBlock(name, blockLabel, parent);
      r := ParseOpenBlockBody(blk, at);
    }

    /** `expect(TK_LBRACE, ...); advance();` and the body */
    method ParseOpenBlockBody(blk: Block, at: Path) returns (r: Result<Block>)
      requires Valid()
      modifies this, lex
      ensures Valid() && Follows(r, ParseOpenBody(old(toks), blk, at), toks)
      decreases |toks|, 0
    {
      var err := Consume(KLBrace);
      if err.Some? {
        return Err(err.value);
      }
      r := ParseBlockBody(blk, at);
    }

    /** The `while (1)` loop of parse_block_recursive: fields and child blocks are
        appended to `blk` until the closing '}' */
    method ParseBlockBody(blk0: Block, at: Path) returns (r: Result<Block>)
      requires Valid()
      modifies this, lex
      ensures Valid() && Follows(r, ParseBody(old(toks), blk0, at), toks)
      decreases |toks|, 2
    {
      var blk := blk0;
      while true
        invariant Valid() && |toks| <= |old(toks)|
        invariant ParseBody(toks, blk, at) == ParseBody(old(toks), blk0, at)
        decreases |toks|, if haveCur then 0 else 1
      {
        if !haveCur {
          Advance();
        }
        if cur.RBrace? {
          Advance();
          return Ok(blk);
        }
        if cur.EOF? {
          return Err(EofInBlock);
        }

        ghost var ts := toks;
        if IsTypeKeyword(cur) {
          BodyField(ts, blk, at);
          var f :- ParseField(true);
          blk := blk.(fields := blk.fields + [f]);
          continue;
        }

        if cur.Ident? {
          var isChild := LooksLikeChildBlock();
          if isChild {
            BodyChild(ts, blk, at);
            var child :- ParseBlockRecursive(Some(at), at + [|blk.children|]);
            blk := blk.(children := blk.children + [child]);
            continue;
          } else {
            BodyField(ts, blk, at);
            var f :- ParseField(false);
            blk := blk.(fields := blk.fields + [f]);
            continue;
          }
        }

        return Err(UnexpectedInBlock(KindOf(cur)));
      }
    }

    /** parse_all: top-level blocks, appended in order until the end of input */
    method ParseAll() returns (r: Result<seq<Block>>)
      requires Valid()
      modifies this, lex
      ensures Valid() && r == ParseDocSpec(old(toks), [])
    {
      var blocks: seq<Block> := [];
      while true
        invariant Valid()
        invariant ParseDocSpec(toks, blocks) == ParseDocSpec(old(toks), [])
        decreases |toks|, if haveCur then 0 else 1
      {
        if !haveCur {
          Advance();
        }
        if cur.EOF? {
          return Ok(blocks);
        }
        if cur.Ident? {
          var b :- ParseBlockRecursive(None, [|blocks|]);
          blocks := blocks + [b];
          continue;
        }
        return Err(ExpectedTopLevelBlock);
      }
    }
  }

  /** main: parse a whole text with a fresh lexer and parser */
  method Parse(text: seq<char>) returns (r: Result<seq<Block>>)
    ensures r == ParseSource(text)
  {
    var p := new Parser(text);
    r := p.ParseAll();
  }
}
