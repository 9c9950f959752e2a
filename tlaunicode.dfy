/** The ASCII/Unicode converter's line rewriter: it walks the token grid line
    by line and item by item, translating built-in symbols, keeping tokens
    aligned with their anchors, and moving left comments to the end of a line
    when a realign fires. Each token's output column lives in `outcol`, the
    one part of the grid the rewriter writes. */
module TLAUnicode {
  import opened Options
  import opened Tokens
  import opened Symbols
  import opened Emit
  import opened Output
  import opened Rewrite
  import Properties

  /** The array holds, for every token of the grid, the entry of `oc`. */
  ghost predicate Mirrors(a: array2<int>, oc: seq<seq<int>>)
    reads a
  {
    && a.Length0 == |oc|
    && (forall l :: 0 <= l < |oc| ==> |oc[l]| <= a.Length1)
    && (forall l, i :: 0 <= l < |oc| && 0 <= i < |oc[l]| ==> a[l, i] == oc[l][i])
  }

  /** Appends `n` spaces to the buffer, one at a time. */
  method AppendSpaces(sb: StringBuilder, n: int)
    modifies sb
    ensures sb.chars == old(sb.chars) + Spaces(n)
  {
    var i := 0;
    while i < n
      invariant 0 <= i <= (if n < 0 then 0 else n)
      invariant sb.chars == old(sb.chars) + Spaces(i)
    {
      sb.Append([' ']);
      i := i + 1;
    }
  }

  /** Appends a comment token in place, formatted by its subtype. */
  method AppendCommentToken(out: StringBuilder, ctok: Token)
    requires ctok.kind.Comment?
    modifies out
    ensures out.chars == old(out.chars) + CommentText(ctok.kind.rsubtype, ctok.width, ctok.text)
  {
    var commentString := ctok.text;
    match ctok.kind.rsubtype
    case Normal => out.Append("(*" + commentString + "*)");
    case Line => out.Append("\\*" + commentString);
    case BeginOverrun =>
      if ctok.width > 0 {
        out.Append("(*" + commentString);
      }
    case EndOverrun => out.Append(commentString + "*)");
    case Overrun => out.Append(commentString);
  }

  /** Marks every left comment as not output: its output column becomes -1. */
  method ResetLeftComments(spec: Grid, line: nat, left: seq<nat>, outcol: array2<int>, ghost oc: seq<seq<int>>)
    returns (ghost oc': seq<seq<int>>)
    requires line < |spec| && Shaped(spec, oc) && Mirrors(outcol, oc)
    requires forall j :: 0 <= j < |left| ==> left[j] < |spec[line]|
    modifies outcol
    ensures oc' == oc[line := ResetOutcols(oc[line], left)]
    ensures Mirrors(outcol, oc')
  {
    oc' := oc;
    for j := 0 to |left|
      invariant Mirrors(outcol, oc')
      invariant oc' == oc[line := ResetOutcols(oc[line], left[..j])]
    {
      assert left[..j + 1][..j] == left[..j];
      outcol[line, left[j]] := -1;
      oc' := oc'[line := oc'[line][left[j] := -1]];
    }
    assert left[..|left|] == left;
  }

  /** The alignment part of one item: the spacing the token's anchor asks
      for (-1 when it asks for none), and the realign when the first
      non-comment token of the line lies left of the buffer's end: the buffer
      is erased, the left comments are marked as not output, and a leading
      END_OVERRUN leaves its closing marker in place. `failed` reports a
      realign needed while converting to ASCII, which nothing changes. */
  method AlignToken(spec: Grid, toU: bool, line: nat, item: nat, out: StringBuilder, outcol: array2<int>, ghost oc: seq<seq<int>>,
                    leftComments: Option<seq<nat>>, onlyComments: bool, keepLeftComments: bool)
    returns (space: int, keep: bool, failed: bool, ghost oc': seq<seq<int>>)
    requires AnchorsResolve(spec) && line < |spec| && item < |spec[line]| && Mirrors(outcol, oc)
    requires Framed(spec, line, item, LineState(out.chars, leftComments, onlyComments, keepLeftComments, oc))
    modifies out, outcol
    ensures var s0 := LineState(old(out.chars), leftComments, onlyComments, keepLeftComments, oc);
      && failed == (NeedsRealign(spec, line, item, s0) && !toU)
      && (failed ==> out.chars == old(out.chars) && keep == keepLeftComments && oc' == oc)
      && (!failed ==> AlignPhase(spec, line, item, s0) == Aligned(space, LineState(out.chars, leftComments, onlyComments, keep, oc')))
      && Mirrors(outcol, oc')
  {
    ghost var s0 := LineState(out.chars, leftComments, onlyComments, keepLeftComments, oc);
    var toks := spec[line];
    var tok := toks[item];
    space, keep, failed, oc' := -1, keepLeftComments, false, oc;
    if tok.aboveAlign.line != -1 {
      // aligned with a token above: try to keep the alignment
      var a := tok.aboveAlign;
      var align := spec[a.line][a.item];
      if align.column == tok.column && outcol[a.line, a.item] >= 0 {
        var column := out.Length();
        space := outcol[a.line, a.item] - column;

        // the first non-comment token cannot be aligned: erase the line
        // and move the left comments to its end
        if space < 0 && onlyComments && !tok.kind.Comment? {
          if !toU {
            return space, keep, true, oc';
          }
          out.DeleteAll();
          space := outcol[a.line, a.item];
          keep := true;
          var left := leftComments.value;
          oc' := ResetLeftComments(spec, line, left, outcol, oc);
          if |left| > 0 && toks[left[0]].kind == Comment(EndOverrun) {
            out.Append("*)");
            space := space - 2;
          }
        }
      }
    }
  }

  /** Emits a token's text: a built-in translated when the table has it,
      a string re-quoted, a comment formatted by subtype (and remembered as a
      left comment while only comments have been seen), anything else
      verbatim. */
  method EmitToken(out: StringBuilder, tok: Token, toU: bool, table: SymbolTable, item: nat,
                   onlyComments: bool, leftComments: Option<seq<nat>>)
    returns (left: Option<seq<nat>>)
    modifies out
    ensures out.chars == old(out.chars) + TokenText(tok, toU, table)
    ensures left == if IsComment(tok) && onlyComments && leftComments.Some? then Some(leftComments.value + [item]) else leftComments
  {
    left := leftComments;
    match tok.kind
    case Builtin =>
      // here the symbol is actually converted
      var alt := Lookup(table, toU, tok.text);
      out.Append(if alt.Some? then alt.value else tok.text);
    case String =>
      out.Append("\"" + tok.text + "\"");
    case Comment(_) =>
      if onlyComments && left.Some? {
        left := Some(left.value + [item]);
      }
      AppendCommentToken(out, tok);
    case _ =>
      out.Append(tok.text);
  }

  /** The padding part of one item: falls back to the original gap when the
      anchor gave no usable spacing, pads, updates the flags, records the
      output column and checks it against the direction. `failure` names
      the internal check that failed, if one did. */
  method PadToken(spec: Grid, toU: bool, line: nat, item: nat, space: int,
                  out: StringBuilder, outcol: array2<int>, ghost oc: seq<seq<int>>,
                  leftComments: Option<seq<nat>>, onlyComments: bool, keepLeftComments: bool)
    returns (left: Option<seq<nat>>, only: bool, failure: Option<Reason>, ghost oc': seq<seq<int>>)
    requires line < |spec| && item < |spec[line]| && Mirrors(outcol, oc)
    requires Framed(spec, line, item, LineState(out.chars, leftComments, onlyComments, keepLeftComments, oc))
    modifies out, outcol
    ensures var s0 := LineState(old(out.chars), leftComments, onlyComments, keepLeftComments, oc);
      var s1 := LineState(out.chars, left, only, keepLeftComments, oc');
      PadPhase(spec, toU, line, item, Aligned(space, s0)) == if failure.None? then Next(s1) else Abort(item, failure.value, s1)
    ensures Mirrors(outcol, oc')
  {
    var toks := spec[line];
    var tok := toks[item];
    left, only, failure, oc' := leftComments, onlyComments, None, oc;
    var space := space;
    if space < 0 { // otherwise keep the original spacing
      space := tok.column - (if item > 0 then toks[item - 1].column + toks[item - 1].width else 0);
    }
    if space < 0 {
      return left, only, Some(NegativeSpace), oc';
    }
    AppendSpaces(out, space);

    if !tok.kind.Comment? {
      only := false;
      if !keepLeftComments {
        left := None;
      }
    }

    assert |oc[line]| == |toks|;
    outcol[line, item] := out.Length();
    oc' := oc[line := oc[line][item := |out.chars|]];
    if (toU && out.Length() > tok.column) || (!toU && out.Length() < tok.column) {
      failure := Some(ColumnDrift);
    }
  }

  /** The placement part of one item: padding, then emission. */
  method PlaceToken(spec: Grid, toU: bool, table: SymbolTable, line: nat, item: nat, space: int,
                    out: StringBuilder, outcol: array2<int>, ghost oc: seq<seq<int>>,
                    leftComments: Option<seq<nat>>, onlyComments: bool, keepLeftComments: bool)
    returns (left: Option<seq<nat>>, only: bool, failure: Option<Reason>, ghost oc': seq<seq<int>>)
    requires line < |spec| && item < |spec[line]| && Mirrors(outcol, oc)
    requires Framed(spec, line, item, LineState(out.chars, leftComments, onlyComments, keepLeftComments, oc))
    modifies out, outcol
    ensures var s0 := LineState(old(out.chars), leftComments, onlyComments, keepLeftComments, oc);
      var s1 := LineState(out.chars, left, only, keepLeftComments, oc');
      PlacePhase(spec, toU, table, line, item, Aligned(space, s0)) == if failure.None? then Next(s1) else Abort(item, failure.value, s1)
    ensures Mirrors(outcol, oc')
  {
    left, only, failure, oc' := PadToken(spec, toU, line, item, space, out, outcol, oc, leftComments, onlyComments, keepLeftComments);
    if failure.None? {
      //---- output the token ----
      left := EmitToken(out, spec[line][item], toU, table, item, only, left);
    }
  }

  /** One pass of the loop over the items of a line: keeps back a final
      comment after a realign, then aligns and places the token. */
  method RewriteItem(spec: Grid, toU: bool, table: SymbolTable, line: nat, item: nat,
                     out: StringBuilder, outcol: array2<int>, ghost oc: seq<seq<int>>,
                     leftComments: Option<seq<nat>>, onlyComments: bool, keepLeftComments: bool)
    returns (left: Option<seq<nat>>, only: bool, keep: bool, failure: Option<Reason>, ghost oc': seq<seq<int>>)
    requires AnchorsResolve(spec) && line < |spec| && item < |spec[line]| && Mirrors(outcol, oc)
    requires Fit(spec, line, item, LineState(out.chars, leftComments, onlyComments, keepLeftComments, oc))
    modifies out, outcol
    ensures var s0 := LineState(old(out.chars), leftComments, onlyComments, keepLeftComments, oc);
      var s1 := LineState(out.chars, left, only, keep, oc');
      ItemStep(spec, toU, table, line, item, s0) == if failure.None? then Next(s1) else Abort(item, failure.value, s1)
    ensures Mirrors(outcol, oc')
  {
    var tok := spec[line][item];
    left, only, keep, failure, oc' := leftComments, onlyComments, keepLeftComments, None, oc;

    // a line that ends with an opened block comment or a line comment keeps
    // it back until the left comments have been appended
    if keepLeftComments && item == |spec[line]| - 1 && tok.kind.Comment? {
      if tok.kind.rsubtype == BeginOverrun || tok.kind.rsubtype == Line {
        return;
      }
    }

    //---- align the token ----
    var space, failed;
    space, keep, failed, oc' := AlignToken(spec, toU, line, item, out, outcol, oc, leftComments, onlyComments, keepLeftComments);
    if failed {
      return left, only, keep, Some(RealignUnderAscii), oc';
    }
    left, only, failure, oc' := PlaceToken(spec, toU, table, line, item, space, out, outcol, oc', left, only, keep);
  }

  /** The end of a line after a realign: each left comment as a
      self-contained block, in order, then the comment kept back from the
      end of the line. */
  method AppendLeftComments(out: StringBuilder, toks: seq<Token>, left: seq<nat>)
    requires |toks| > 0 && forall j :: 0 <= j < |left| ==> left[j] < |toks|
    modifies out
    ensures var last := toks[|toks| - 1];
      out.chars == old(out.chars) + DeferredAll(toks, left)
        + (if OpensAtEnd(last) then " " + CommentText(last.kind.rsubtype, last.width, last.text) else [])
  {
    for j := 0 to |left|
      invariant out.chars == old(out.chars) + DeferredAll(toks, left[..j])
    {
      assert left[..j + 1][..j] == left[..j];
      out.Append(" (*" + toks[left[j]].text + "*)");
    }
    assert left[..|left|] == left;
    var last := toks[|toks| - 1];
    if last.kind.Comment? {
      // the comment kept back at the end of the line
      if last.kind.rsubtype == BeginOverrun || last.kind.rsubtype == Line {
        out.Append(" ");
        AppendCommentToken(out, last);
      }
    }
  }

  /** Rewrites line `line` into a string, recording each token's output
      column; reports the item and the check when an internal check fails. */
  method RewriteLine(spec: Grid, toU: bool, table: SymbolTable, line: nat, outcol: array2<int>, ghost start: seq<seq<int>>)
    returns (text: string, failure: Option<(nat, Reason)>)
    requires AnchorsResolve(spec) && line < |spec| && Shaped(spec, start) && Mirrors(outcol, start)
    modifies outcol
    ensures var r := Rewrite.ConvertLine(spec, toU, table, line, start);
      && Mirrors(outcol, r.outcol)
      && (failure.None? ==> r == Emitted(text, r.outcol))
      && (failure.Some? ==> r == Failed(failure.value.0, failure.value.1, r.outcol))
  {
    ghost var oc := start;
    var toks := spec[line];
    var out := new StringBuilder();
    var leftComments: Option<seq<nat>> := Some([]); // left comments that may move to the end of the line
    var onlyComments := true; // only comments seen on this line so far
    var keepLeftComments := false;

    for item := 0 to |toks|
      modifies outcol, out
      invariant Fit(spec, line, item, LineState(out.chars, leftComments, onlyComments, keepLeftComments, oc))
      invariant Mirrors(outcol, oc)
      invariant ItemsFrom(spec, toU, table, line, item, LineState(out.chars, leftComments, onlyComments, keepLeftComments, oc))
             == ItemsFrom(spec, toU, table, line, 0, Init(start))
    {
      var failed;
      leftComments, onlyComments, keepLeftComments, failed, oc :=
        RewriteItem(spec, toU, table, line, item, out, outcol, oc, leftComments, onlyComments, keepLeftComments);
      if failed.Some? {
        return [], Some((item, failed.value));
      }
    }

    ghost var final := LineState(out.chars, leftComments, onlyComments, keepLeftComments, oc);
    assert ItemsFrom(spec, toU, table, line, |toks|, final) == Next(final);

    if keepLeftComments { // the left comments move to the end of the line
      AppendLeftComments(out, toks, leftComments.value);
    }
    return out.chars, None;
  }

  /** Rewrites every line of `spec` into `writer`, in order, and closes the
      writer; when an internal check fails the run stops at the offending
      token, leaving the earlier lines written and the writer open. */
  method Convert(spec: Grid, toU: bool, table: SymbolTable, outcol: array2<int>, ghost oc0: seq<seq<int>>, writer: Writer)
    returns (fault: Option<Fault>)
    requires AnchorsResolve(spec) && Shaped(spec, oc0) && Mirrors(outcol, oc0)
    requires !writer.closed
    modifies outcol, writer
    ensures var r := Rewrite.Convert(spec, toU, table, oc0);
      && fault == r.fault
      && writer.lines == old(writer.lines) + r.lines
      && Mirrors(outcol, r.outcol)
      && writer.closed == fault.None?
    ensures fault.None? ==> |writer.lines| == |old(writer.lines)| + |spec|
  {
    ghost var oc := oc0;
    ghost var written: seq<string> := [];

    for line := 0 to |spec|
      invariant Shaped(spec, oc) && Mirrors(outcol, oc)
      invariant !writer.closed && writer.lines == old(writer.lines) + written
      invariant RunFrom(spec, toU, table, line, written, oc) == Rewrite.Convert(spec, toU, table, oc0)
    {
      var text, failure := RewriteLine(spec, toU, table, line, outcol, oc);
      oc := Rewrite.ConvertLine(spec, toU, table, line, oc).outcol;
      if failure.Some? {
        return Some(Fault(line, failure.value.0, failure.value.1));
      }
      writer.PutLine(text);
      written := written + [text];
    }
    writer.Close();
    Properties.RunLineCount(spec, toU, table, 0, [], oc0);
    return None;
  }
}
