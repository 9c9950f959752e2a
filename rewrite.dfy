/** The specification of the line rewriter, as functions: one step per token,
    the steps of a line in order, the end-of-line flush of deferred comments,
    and the lines of the grid in order. The imperative rewriter in module
    TLAUnicode is proved to compute exactly these values. */
module Rewrite {
  import opened Options
  import opened Tokens
  import opened Symbols
  import opened Emit

  /** The output-column table has one entry per token of the grid. */
  predicate Shaped(spec: Grid, oc: seq<seq<int>>) {
    |oc| == |spec| && forall l :: 0 <= l < |spec| ==> |oc[l]| == |spec[l]|
  }

  /** What the rewriter knows in the middle of a line: the line buffer, the
      left comments (item indices; None once dropped), whether only comments
      have been seen, whether a realign has fired, and every token's output
      column. */
  datatype LineState = LineState(
    out: string,
    leftComments: Option<seq<nat>>,
    onlyComments: bool,
    keepLeftComments: bool,
    outcol: seq<seq<int>>)

  /** The internal-consistency checks of the rewriter, each of which aborts
      the run when it fails. */
  datatype Reason =
    | RealignUnderAscii   // a realign was needed while converting to ASCII
    | NegativeSpace       // the spacing before a token came out negative
    | ColumnDrift         // a token moved right under toU, or left otherwise

  /** The outcome of one step: the next state, or an abort at `item` with the
      state reached when the check failed. */
  datatype Step = Next(st: LineState) | Abort(item: nat, reason: Reason, st: LineState)

  /** The state at the start of every line. */
  function Init(oc: seq<seq<int>>): LineState {
    LineState([], Some([]), true, false, oc)
  }

  /** The well-formedness the steps need: a table of the grid's shape and
      left comments that are earlier items of the line. */
  predicate Framed(spec: Grid, line: nat, k: nat, st: LineState) {
    && Shaped(spec, st.outcol)
    && line < |spec| && k <= |spec[line]|
    && (st.leftComments.Some? ==> forall j :: 0 <= j < |st.leftComments.value| ==> st.leftComments.value[j] < k)
    && (st.onlyComments ==> st.leftComments.Some?)
    && (st.keepLeftComments ==> st.leftComments.Some?)
  }

  /** Framed, and a realign only after some item has been processed. */
  predicate Fit(spec: Grid, line: nat, k: nat, st: LineState) {
    Framed(spec, line, k, st) && (st.keepLeftComments ==> 0 < k)
  }

  /** The output column to align `tok` with: present when it has an anchor
      with the same original column whose output column is non-negative. */
  function Anchored(spec: Grid, oc: seq<seq<int>>, tok: Token): Option<int>
    requires Shaped(spec, oc) && ValidAnchor(spec, tok.aboveAlign)
  {
    var a := tok.aboveAlign;
    if a.line == -1 then None
    else if spec[a.line][a.item].column == tok.column && oc[a.line][a.item] >= 0 then Some(oc[a.line][a.item])
    else None
  }

  /** The original gap between a token and the end of its predecessor, or its
      column when it is first on its line. */
  function FallbackSpace(toks: seq<Token>, item: nat): int
    requires item < |toks|
  {
    toks[item].column - (if item > 0 then toks[item - 1].column + toks[item - 1].width else 0)
  }

  /** A row of output columns with the given items marked as not output. */
  function ResetOutcols(row: seq<int>, idxs: seq<nat>): (r: seq<int>)
    requires forall j :: 0 <= j < |idxs| ==> idxs[j] < |row|
    ensures |r| == |row|
    ensures forall j :: 0 <= j < |idxs| ==> r[idxs[j]] == -1
    ensures forall i :: 0 <= i < |row| && i !in idxs ==> r[i] == row[i]
  {
    if idxs == [] then row
    else ResetOutcols(row, idxs[..|idxs| - 1])[idxs[|idxs| - 1] := -1]
  }

  /** The last token of a line is skipped in place when a realign has fired
      and it is a comment that has to end the line. */
  predicate Skipped(spec: Grid, line: nat, item: nat, st: LineState)
    requires line < |spec| && item < |spec[line]|
  {
    st.keepLeftComments && item == |spec[line]| - 1 && OpensAtEnd(spec[line][item])
  }

  /** True when aligning `tok` needs a realign: the anchor lies left of the
      buffer's end and only comments precede the token. */
  predicate NeedsRealign(spec: Grid, line: nat, item: nat, st: LineState)
    requires line < |spec| && item < |spec[line]|
    requires Shaped(spec, st.outcol) && AnchorsResolve(spec)
  {
    var tok := spec[line][item];
    var anchored := Anchored(spec, st.outcol, tok);
    anchored.Some? && anchored.value < |st.out| && st.onlyComments && !IsComment(tok)
  }

  /** True when the first left comment closes a block comment begun on an
      earlier line. */
  predicate LeadsWithEndOverrun(toks: seq<Token>, left: seq<nat>)
    requires forall j :: 0 <= j < |left| ==> left[j] < |toks|
  {
    |left| > 0 && toks[left[0]].kind == Comment(EndOverrun)
  }

  /** The spacing the anchor asks for (-1 when it asks for none) and the
      state after the realign, if one fires. */
  datatype Aligned = Aligned(space: int, st: LineState)

  /** The alignment phase of a step, for a token that is not skipped and
      whose realign, if any, happens under toU. */
  function AlignPhase(spec: Grid, line: nat, item: nat, st: LineState): (r: Aligned)
    requires AnchorsResolve(spec)
    requires Framed(spec, line, item, st) && item < |spec[line]|
    ensures Framed(spec, line, item, r.st)
    ensures r.st.leftComments == st.leftComments && r.st.onlyComments == st.onlyComments
  {
    var toks := spec[line];
    var anchored := Anchored(spec, st.outcol, toks[item]);
    if !NeedsRealign(spec, line, item, st) then
      Aligned(if anchored.Some? then anchored.value - |st.out| else -1, st)
    else
      var left := st.leftComments.value;
      var oc := st.outcol[line := ResetOutcols(st.outcol[line], left)];
      if LeadsWithEndOverrun(toks, left) then
        Aligned(anchored.value - 2, st.(out := "*)", keepLeftComments := true, outcol := oc))
      else
        Aligned(anchored.value, st.(out := [], keepLeftComments := true, outcol := oc))
  }

  /** The padding phase of a step: fall back to the original gap when the
      anchor gave no usable spacing, pad, update the flags, record the
      output column and check it against the direction. */
  function PadPhase(spec: Grid, toU: bool, line: nat, item: nat, a: Aligned): (r: Step)
    requires Framed(spec, line, item, a.st) && item < |spec[line]|
    ensures r.Next? ==> Framed(spec, line, item, r.st) && (r.st.keepLeftComments ==> 0 < item + 1)
    ensures r.Abort? ==> r.item == item && Shaped(spec, r.st.outcol)
  {
    var st := a.st;
    var tok := spec[line][item];
    var space := if a.space < 0 then FallbackSpace(spec[line], item) else a.space;
    if space < 0 then Abort(item, NegativeSpace, st)
    else
      var out := st.out + Spaces(space);
      var only := st.onlyComments && IsComment(tok);
      var left := if !IsComment(tok) && !st.keepLeftComments then None else st.leftComments;
      var col := |out|;
      var st' := LineState(out, left, only, st.keepLeftComments, st.outcol[line := st.outcol[line][item := col]]);
      if (if toU then col > tok.column else col < tok.column) then Abort(item, ColumnDrift, st')
      else Next(st')
  }

  /** Emits the token after its padding; a comment seen while only comments
      have been seen joins the left comments. */
  function EmitPhase(spec: Grid, toU: bool, table: SymbolTable, line: nat, item: nat, st: LineState): (r: LineState)
    requires Framed(spec, line, item, st) && item < |spec[line]|
    ensures Framed(spec, line, item + 1, r)
  {
    var tok := spec[line][item];
    var left := if IsComment(tok) && st.onlyComments && st.leftComments.Some? then Some(st.leftComments.value + [item]) else st.leftComments;
    st.(out := st.out + TokenText(tok, toU, table), leftComments := left)
  }

  /** The placement phase of a step: padding, then emission. */
  function PlacePhase(spec: Grid, toU: bool, table: SymbolTable, line: nat, item: nat, a: Aligned): (r: Step)
    requires Framed(spec, line, item, a.st) && item < |spec[line]|
    ensures r.Next? ==> Fit(spec, line, item + 1, r.st)
    ensures r.Abort? ==> r.item == item && Shaped(spec, r.st.outcol)
  {
    match PadPhase(spec, toU, line, item, a)
    case Next(st) => Next(EmitPhase(spec, toU, table, line, item, st))
    case Abort(i, reason, st) => Abort(i, reason, st)
  }

  /** One pass of the inner loop of the rewriter over item `item`. */
  function ItemStep(spec: Grid, toU: bool, table: SymbolTable, line: nat, item: nat, st: LineState): (r: Step)
    requires AnchorsResolve(spec)
    requires Fit(spec, line, item, st) && item < |spec[line]|
    ensures r.Next? ==> Fit(spec, line, item + 1, r.st)
    ensures r.Abort? ==> r.item == item && Shaped(spec, r.st.outcol)
  {
    if Skipped(spec, line, item, st) then Next(st)
    else if NeedsRealign(spec, line, item, st) && !toU then Abort(item, RealignUnderAscii, st)
    else PlacePhase(spec, toU, table, line, item, AlignPhase(spec, line, item, st))
  }

  /** The remaining items of a line, from item `k` on. */
  function ItemsFrom(spec: Grid, toU: bool, table: SymbolTable, line: nat, k: nat, st: LineState): (r: Step)
    requires AnchorsResolve(spec)
    requires Fit(spec, line, k, st)
    ensures r.Next? ==> Fit(spec, line, |spec[line]|, r.st)
    ensures r.Abort? ==> k <= r.item < |spec[line]| && Shaped(spec, r.st.outcol)
    decreases |spec[line]| - k, 1
  {
    if k == |spec[line]| then Next(st)
    else ItemThenRest(spec, toU, table, line, k, st)
  }

  /** Item `k`, then the items after it; an abort at item `k` ends the line. */
  function ItemThenRest(spec: Grid, toU: bool, table: SymbolTable, line: nat, k: nat, st: LineState): (r: Step)
    requires AnchorsResolve(spec)
    requires Fit(spec, line, k, st) && k < |spec[line]|
    ensures r.Next? ==> Fit(spec, line, |spec[line]|, r.st)
    ensures r.Abort? ==> k <= r.item < |spec[line]| && Shaped(spec, r.st.outcol)
    decreases |spec[line]| - k, 0
  {
    match ItemStep(spec, toU, table, line, k, st)
    case Next(st') => ItemsFrom(spec, toU, table, line, k + 1, st')
    case Abort(i, reason, st') => Abort(i, reason, st')
  }

  /** The deferred forms of the given items, in order. */
  function DeferredAll(toks: seq<Token>, idxs: seq<nat>): string
    requires forall j :: 0 <= j < |idxs| ==> idxs[j] < |toks|
  {
    if idxs == [] then []
    else DeferredAll(toks, idxs[..|idxs| - 1]) + Deferred(toks[idxs[|idxs| - 1]].text)
  }

  /** The finished line: after a realign, the left comments follow the
      buffer, and a final opened-block or line comment follows them. */
  function FinishLine(spec: Grid, line: nat, st: LineState): string
    requires line < |spec| && Fit(spec, line, |spec[line]|, st)
  {
    if !st.keepLeftComments then st.out
    else
      var toks := spec[line];
      var last := toks[|toks| - 1];
      st.out + DeferredAll(toks, st.leftComments.value)
        + (if OpensAtEnd(last) then " " + CommentText(last.kind.rsubtype, last.width, last.text) else [])
  }

  datatype LineOutcome =
    | Emitted(text: string, outcol: seq<seq<int>>)
    | Failed(item: nat, reason: Reason, outcol: seq<seq<int>>)

  /** Rewrites one line, starting from the output-column table `oc`. */
  function ConvertLine(spec: Grid, toU: bool, table: SymbolTable, line: nat, oc: seq<seq<int>>): (r: LineOutcome)
    requires AnchorsResolve(spec) && Shaped(spec, oc) && line < |spec|
    ensures Shaped(spec, r.outcol)
    ensures r.Failed? ==> r.item < |spec[line]|
  {
    match ItemsFrom(spec, toU, table, line, 0, Init(oc))
    case Next(st) => Emitted(FinishLine(spec, line, st), st.outcol)
    case Abort(i, reason, st) => Failed(i, reason, st.outcol)
  }

  /** Where a run aborted. */
  datatype Fault = Fault(line: nat, item: nat, reason: Reason)

  /** The lines handed to the writer, the final output-column table, and the
      fault that stopped the run, if any. */
  datatype Run = Run(lines: seq<string>, outcol: seq<seq<int>>, fault: Option<Fault>)

  /** Rewrites the lines from `line` on, after `lines` have been written. */
  function RunFrom(spec: Grid, toU: bool, table: SymbolTable, line: nat, lines: seq<string>, oc: seq<seq<int>>): (r: Run)
    requires AnchorsResolve(spec) && Shaped(spec, oc) && line <= |spec|
    ensures Shaped(spec, r.outcol)
    decreases |spec| - line
  {
    if line == |spec| then Run(lines, oc, None)
    else
      match ConvertLine(spec, toU, table, line, oc)
      case Emitted(text, oc') => RunFrom(spec, toU, table, line + 1, lines + [text], oc')
      case Failed(i, reason, oc') => Run(lines, oc', Some(Fault(line, i, reason)))
  }

  /** The whole conversion, starting from the output-column table `oc`. */
  function Convert(spec: Grid, toU: bool, table: SymbolTable, oc: seq<seq<int>>): Run
    requires AnchorsResolve(spec) && Shaped(spec, oc)
  {
    RunFrom(spec, toU, table, 0, [], oc)
  }
}
