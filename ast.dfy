/** The tree the parser of src/acl.c builds (Value, Field, Block), with the
    linked lists of fields, children and siblings as sequences, and the
    outcome of a parse: the tree, or the error the source reports before exit(1). */
module Ast {
  import opened Tokens

  datatype Option<+T> = None | Some(value: T)

  /** The declared type of a typed field; an inferred field has none */
  datatype TypeTag = TInt | TFloat | TBool | TString

  /** A literal value: VAL_INT, VAL_BOOL, VAL_STRING or VAL_CHAR */
  datatype Value =
    | VInt(i: int)
    | VBool(b: bool)
    | VString(s: string)
    | VChar(c: char)

  datatype Field = Field(ftype: Option<TypeTag>, name: string, val: Value)

  /** The position of a block in the tree: the index of its top-level ancestor,
      then the index among its parent's children at each level. It stands for
      the block's address, which the source stores in each child's parent link. */
  type Path = seq<nat>

  /** A block: name, optional label, fields and child blocks in source order,
      and the path of its parent (None for a top-level block) */
  datatype Block = Block(
    name: string,
    blockLabel: Option<string>,
    fields: seq<Field>,
    children: seq<Block>,
    parent: Option<Path>)

  /** Why a parse stops; each case is one of the source's exit(1) sites */
  datatype ParseError =
    | ExpectedToken(want: Kind, got: Kind)   // expect(): missing '=', ';' or '{'
    | ExpectedLiteral(got: Kind)             // parse_literal_expr
    | ExpectedFieldName                      // parse_field: no identifier
    | BadTypeToken                           // parse_field: internal error
    | ExpectedBlockName                      // parse_block_recursive: no identifier
    | EofInBlock                             // end of input inside a block body
    | UnexpectedInBlock(got: Kind)           // any other token in a block body
    | ExpectedTopLevelBlock                  // parse_all: neither identifier nor end

  datatype Result<+T> = Ok(value: T) | Err(error: ParseError) {
    predicate IsFailure() {
      Err?
    }

    function PropagateFailure<U>(): Result<U>
      requires Err?
    {
      Err(error)
    }

    function Extract(): T
      requires Ok?
    {
      value
    }
  }
}
