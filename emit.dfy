/** The text the rewriter emits for a single token, for padding and for a
    comment moved to the end of its line. */
module Emit {
  import opened Options
  import opened Tokens
  import opened Symbols

  /** `n` space characters; nothing when `n` is not positive. */
  function Spaces(n: int): (r: string)
    ensures |r| == if n < 0 then 0 else n
    ensures forall i :: 0 <= i < |r| ==> r[i] == ' '
    decreases if n < 0 then 0 else n
  {
    if n <= 0 then [] else Spaces(n - 1) + [' ']
  }

  /** A comment emitted in place, formatted by its subtype; a zero-width
      BEGIN_OVERRUN is a bare marker and produces no text. */
  function CommentText(sub: CommentSubtype, width: int, s: string): string {
    match sub
    case Normal => "(*" + s + "*)"
    case Line => "\\*" + s
    case BeginOverrun => if width > 0 then "(*" + s else ""
    case EndOverrun => s + "*)"
    case Overrun => s
  }

  /** Reads the comment's own text back out of what CommentText emitted, by
      stripping the delimiters its subtype calls for. */
  function CommentBody(sub: CommentSubtype, r: string): Option<string> {
    match sub
    case Normal =>
      if |r| >= 4 && r[..2] == "(*" && r[|r| - 2..] == "*)" then Some(r[2..|r| - 2]) else None
    case Line =>
      if |r| >= 2 && r[..2] == "\\*" then Some(r[2..]) else None
    case BeginOverrun =>
      if |r| >= 2 && r[..2] == "(*" then Some(r[2..]) else None
    case EndOverrun =>
      if |r| >= 2 && r[|r| - 2..] == "*)" then Some(r[..|r| - 2]) else None
    case Overrun => Some(r)
  }

  /** Emitting a comment in place never loses its text: the text is recovered
      from the output by its subtype, except for the zero-width opening
      marker, which emits nothing. */
  lemma CommentRoundTrip(sub: CommentSubtype, width: int, s: string)
    ensures sub == BeginOverrun && width <= 0 ==> CommentText(sub, width, s) == []
    ensures sub != BeginOverrun || width > 0 ==> CommentBody(sub, CommentText(sub, width, s)) == Some(s)
  {
    var r := CommentText(sub, width, s);
    match sub
    case Normal =>
      assert r == "(*" + s + "*)";
      assert r[..2] == "(*" && r[|r| - 2..] == "*)" && r[2..|r| - 2] == s;
    case Line =>
      assert r[..2] == "\\*" && r[2..] == s;
    case BeginOverrun =>
      if width > 0 {
        assert r[..2] == "(*" && r[2..] == s;
      }
    case EndOverrun =>
      assert r[|r| - 2..] == "*)" && r[..|r| - 2] == s;
    case Overrun =>
  }

  /** The form a left comment takes once it is moved to the end of its line:
      always a self-contained block, whatever its subtype was. */
  function Deferred(s: string): string {
    " (*" + s + "*)"
  }

  /** A comment moved to the end of its line keeps its text, whatever its
      subtype was: its deferred form is a space followed by the NORMAL
      in-place form of that text, from which the text is read back. */
  lemma DeferredRoundTrip(s: string)
    ensures |Deferred(s)| == |s| + 5 && Deferred(s)[0] == ' '
    ensures Deferred(s)[1..] == CommentText(Normal, 0, s)
    ensures CommentBody(Normal, Deferred(s)[1..]) == Some(s)
  {
    assert Deferred(s)[1..] == CommentText(Normal, 0, s);
    CommentRoundTrip(Normal, 0, s);
  }

  /** The text emitted for a token: built-in symbols translated through the
      table when it has them, strings re-quoted, comments formatted by
      subtype, everything else verbatim. */
  function TokenText(tok: Token, toU: bool, table: SymbolTable): string {
    match tok.kind
    case Builtin =>
      (match Lookup(table, toU, tok.text)
       case Some(alt) => alt
       case None => tok.text)
    case String => "\"" + tok.text + "\""
    case Comment(sub) => CommentText(sub, tok.width, tok.text)
    case _ => tok.text
  }

  /** A built-in the table knows is emitted as its counterpart in the
      direction of conversion, one it does not know passes through
      unchanged; a string gains exactly a double quote on each side;
      the other non-comment tokens are copied verbatim. */
  lemma TokenTextShape(tok: Token, toU: bool, table: SymbolTable)
    ensures tok.kind == Builtin && Lookup(table, toU, tok.text).Some? ==>
              TokenText(tok, toU, table) == Lookup(table, toU, tok.text).value
    ensures tok.kind == Builtin && Lookup(table, toU, tok.text).None? ==> TokenText(tok, toU, table) == tok.text
    ensures tok.kind == String ==> && |TokenText(tok, toU, table)| == |tok.text| + 2
                                   && TokenText(tok, toU, table)[0] == '"'
                                   && TokenText(tok, toU, table)[1..|tok.text| + 1] == tok.text
                                   && TokenText(tok, toU, table)[|tok.text| + 1] == '"'
    ensures (tok.kind in {Number, Ident, PcalLabel, Dashes, EndModule, Prolog, Epilog, PfStep}) ==>
              TokenText(tok, toU, table) == tok.text
  {
    if tok.kind == String {
      assert TokenText(tok, toU, table)[1..|tok.text| + 1] == tok.text;
    }
  }

  /** With a table whose directions undo each other, translating a built-in
      to Unicode and back to ASCII (or the reverse) restores its spelling. */
  lemma TranslationRoundTrip(tok: Token, toU: bool, table: SymbolTable)
    requires Inverse(table)
    requires tok.kind == Builtin
    requires tok.text in (if toU then table.a2u else table.u2a)
    ensures TokenText(tok.(text := TokenText(tok, toU, table)), !toU, table) == tok.text
  {
  }
}
