/** The token grid the rewriter consumes: every token already tokenized,
    classified, given its comment subtype and its alignment anchor. */
module Tokens {

  /** Subtypes of a comment token: a self-contained `(* *)` block, a `\*` line
      comment, and the opening, interior and closing lines of a block comment
      that spans several lines. */
  datatype CommentSubtype = Normal | Line | BeginOverrun | EndOverrun | Overrun

  /** The token types the rewriter handles; a comment carries its subtype. */
  datatype TokenType =
    | Builtin | Number | Ident | PcalLabel | Dashes | EndModule
    | Prolog | Epilog | PfStep | String
    | Comment(rsubtype: CommentSubtype)

  /** A (line, item) pair into the grid; line == -1 means "no anchor". */
  datatype Position = Position(line: int, item: int)

  /** One token: its type, its text (without quotes or comment delimiters),
      its original column and width, and the token above it that it was
      aligned with. Its output column is not part of the value: the rewriter
      keeps those in a separate table. */
  datatype Token = Token(kind: TokenType, text: string, column: int, width: int, aboveAlign: Position)

  /** spec[i][j] is item j on line i. */
  type Grid = seq<seq<Token>>

  predicate IsComment(t: Token) {
    t.kind.Comment?
  }

  /** True when the anchor is absent or names an existing token of the grid. */
  predicate ValidAnchor(spec: Grid, p: Position) {
    p.line == -1 || (0 <= p.line < |spec| && 0 <= p.item < |spec[p.line]|)
  }

  /** Every anchor of the grid can be resolved to a token. */
  predicate AnchorsResolve(spec: Grid) {
    forall l, i :: 0 <= l < |spec| && 0 <= i < |spec[l]| ==> ValidAnchor(spec, spec[l][i].aboveAlign)
  }

  /** A comment that must stay the last thing on its line: an opened block
      comment or a line comment. */
  predicate OpensAtEnd(t: Token) {
    t.kind == Comment(BeginOverrun) || t.kind == Comment(Line)
  }

  /** Index of the first non-comment token of a line, or the line's length. */
  function FirstNonComment(toks: seq<Token>): (r: nat)
    ensures r <= |toks|
    ensures forall j :: 0 <= j < r ==> IsComment(toks[j])
    ensures r < |toks| ==> !IsComment(toks[r])
  {
    if toks == [] then 0
    else if !IsComment(toks[0]) then 0
    else 1 + FirstNonComment(toks[1..])
  }
}
