/** An unterminated block comment in src/acl.c:51-55. When no closer follows
    the opening slash and star, the inner scan stops once srcpos+1 < srclen
    fails, that is on the last byte of the input, and the guard before
    `srcpos += 2` leaves it there; that byte is then lexed as a token. The evident intent, and what
    LexerSpec.BlockCommentEnd and the rest of the model do, is that such a
    comment runs to the end of the input. */
module Findings {
  import opened Chars
  import opened Tokens
  import opened LexerSpec

  /** The position after a block comment whose body starts at i, as the source
      computes it: past the closer, or where the scan stopped when there is none */
  function BlockCommentEndAsWritten(src: seq<char>, i: nat): (j: nat)
    requires i <= |src|
    ensures i <= j <= |src|
    ensures !CloseAt(src, CloseScan(src, i)) ==> j == CloseScan(src, i)
  {
    var k := CloseScan(src, i);
    if CloseAt(src, k) then k + 2 else k
  }

  /** skip_spaces_and_comments as written */
  function SkipToAsWritten(src: seq<char>, p: nat): (q: nat)
    requires p <= |src|
    ensures p <= q <= |src|
    ensures q == |src| || (!IsSpace(src[q]) && !LineCommentAt(src, q) && !BlockCommentAt(src, q))
    decreases |src| - p
  {
    if p == |src| then p
    else if IsSpace(src[p]) then SkipToAsWritten(src, p + 1)
    else if LineCommentAt(src, p) then SkipToAsWritten(src, LineEnd(src, p + 2))
    else if BlockCommentAt(src, p) then SkipToAsWritten(src, BlockCommentEndAsWritten(src, p + 2))
    else p
  }

  /** No comment closer starts anywhere from i on */
  predicate Unclosed(src: seq<char>, i: nat) {
    forall m :: i <= m < |src| ==> !CloseAt(src, m)
  }

  /** The closer scan stops inside the input when it starts inside it */
  lemma {:induction false} CloseScanInside(src: seq<char>, i: nat)
    requires i < |src|
    ensures CloseScan(src, i) < |src|
    decreases |src| - i
  {
    if i + 1 < |src| && !CloseAt(src, i) {
      CloseScanInside(src, i + 1);
    }
  }

  /** As written, an unterminated comment with a body stops the scan on the
      last byte of the input, which is then left for next_token unless it is
      white space */
  lemma UnclosedCommentAsWritten(src: seq<char>, p: nat)
    requires BlockCommentAt(src, p) && p + 2 < |src| && Unclosed(src, p + 2)
    ensures BlockCommentEndAsWritten(src, p + 2) == |src| - 1
    ensures SkipToAsWritten(src, p) == if IsSpace(src[|src| - 1]) then |src| else |src| - 1
  {
    var k := CloseScan(src, p + 2);
    CloseScanInside(src, p + 2);
    assert !CloseAt(src, k);
    var last := |src| - 1;
    assert SkipToAsWritten(src, p) == SkipToAsWritten(src, last);
    if IsSpace(src[last]) {
      assert SkipToAsWritten(src, last) == SkipToAsWritten(src, last + 1);
    }
  }

  /** The text slash, star, x: as written the skip stops at 2 and next_token
      returns the identifier "x" that sits inside the comment */
  lemma UnclosedCommentLeaksLastByte()
    ensures SkipToAsWritten("/*x", 0) == 2
    ensures NextTokFrom("/*x", 2) == (Ident("x"), 3)
  {
    var src := "/*x";
    UnclosedCommentAsWritten(src, 0);
    assert IsIdentStart(src[2]);
    assert src[2..3] == "x";
    assert WordEnd(src, 3) == 3;
  }

  /** As intended: nothing after an unterminated block comment is a token;
      the skip reaches the end of the input and next_token returns TOK_EOF */
  lemma UnclosedCommentRunsToEnd(src: seq<char>, p: nat)
    requires BlockCommentAt(src, p) && Unclosed(src, p + 2)
    ensures SkipTo(src, p) == |src|
    ensures NextTok(src, p).0 == EOF
  {
    var k := CloseScan(src, p + 2);
    assert !CloseAt(src, k);
    assert SkipTo(src, p) == SkipTo(src, |src|);
  }

  /** The corrected skip on the same text: the whole text is a comment */
  lemma UnclosedCommentIsSkipped()
    ensures SkipTo("/*x", 0) == 3
    ensures NextTok("/*x", 0) == (EOF, 3)
  {
    UnclosedCommentRunsToEnd("/*x", 0);
  }
}
