/** What the rewriter promises, proved about its specification in module
    Rewrite. */
module Properties {
  import opened Options
  import opened Tokens
  import opened Symbols
  import opened Emit
  import opened Rewrite

  /** A sequence that starts with `a + [x]` starts with `a`. */
  lemma PrefixOfPrefix<T>(a: seq<T>, x: T, c: seq<T>)
    requires |a| + 1 <= |c| && c[..|a| + 1] == a + [x]
    ensures |a| <= |c| && c[..|a|] == a
  {
    assert c[..|a|] == c[..|a| + 1][..|a|];
  }

  /** Every sequence starts with itself. */
  lemma PrefixOfSelf<T>(a: seq<T>)
    ensures a[..|a|] == a
  {
  }

  /** A run past the last line writes nothing more and reports no fault. */
  lemma RunFromEnd(spec: Grid, toU: bool, table: SymbolTable, lines: seq<string>, oc: seq<seq<int>>)
    requires AnchorsResolve(spec) && Shaped(spec, oc)
    ensures RunFrom(spec, toU, table, |spec|, lines, oc) == Run(lines, oc, None)
  {
  }

  /** One line of a run: the line is rewritten, and the run goes on from the
      next line with its text written, or stops with its fault. */
  lemma RunFromStep(spec: Grid, toU: bool, table: SymbolTable, line: nat, lines: seq<string>, oc: seq<seq<int>>)
    requires AnchorsResolve(spec) && Shaped(spec, oc) && line < |spec|
    ensures var o := ConvertLine(spec, toU, table, line, oc);
      RunFrom(spec, toU, table, line, lines, oc)
      == if o.Emitted? then RunFrom(spec, toU, table, line + 1, lines + [o.text], o.outcol)
         else Run(lines, o.outcol, Some(Fault(line, o.item, o.reason)))
  {
  }

  /** The lines already written stay, in order, at the head of the run's
      output. */
  lemma {:induction false} RunKeepsEarlierLines(spec: Grid, toU: bool, table: SymbolTable, line: nat, lines: seq<string>, oc: seq<seq<int>>)
    requires AnchorsResolve(spec) && Shaped(spec, oc) && line <= |spec|
    ensures var r := RunFrom(spec, toU, table, line, lines, oc);
      |lines| <= |r.lines| && r.lines[..|lines|] == lines
    decreases |spec| - line
  {
    if line == |spec| {
      RunFromEnd(spec, toU, table, lines, oc);
      PrefixOfSelf(lines);
    } else {
      RunFromStep(spec, toU, table, line, lines, oc);
      var o := ConvertLine(spec, toU, table, line, oc);
      if o.Emitted? {
        var lines' := lines + [o.text];
        RunKeepsEarlierLines(spec, toU, table, line + 1, lines', o.outcol);
        PrefixOfPrefix(lines, o.text, RunFrom(spec, toU, table, line + 1, lines', o.outcol).lines);
      } else {
        PrefixOfSelf(lines);
      }
    }
  }

  /** How many lines a run writes after the earlier ones: one per remaining
      line when it completes, the lines before the faulty one otherwise. */
  lemma {:induction false} RunWritesOneLinePerLine(spec: Grid, toU: bool, table: SymbolTable, line: nat, lines: seq<string>, oc: seq<seq<int>>)
    requires AnchorsResolve(spec) && Shaped(spec, oc) && line <= |spec|
    ensures var r := RunFrom(spec, toU, table, line, lines, oc);
      && (r.fault.None? ==> |r.lines| == |lines| + |spec| - line)
      && (r.fault.Some? ==> line <= r.fault.value.line < |spec| && |r.lines| == |lines| + r.fault.value.line - line)
    decreases |spec| - line
  {
    if line == |spec| {
      RunFromEnd(spec, toU, table, lines, oc);
    } else {
      RunFromStep(spec, toU, table, line, lines, oc);
      var o := ConvertLine(spec, toU, table, line, oc);
      if o.Emitted? {
        RunWritesOneLinePerLine(spec, toU, table, line + 1, lines + [o.text], o.outcol);
      }
    }
  }

  /** One output line per input line, in input order: a run that completes
      writes exactly one line per line of the grid, and a run that aborts
      writes exactly the lines before the one it aborted on. */
  lemma RunLineCount(spec: Grid, toU: bool, table: SymbolTable, line: nat, lines: seq<string>, oc: seq<seq<int>>)
    requires AnchorsResolve(spec) && Shaped(spec, oc) && line <= |spec|
    ensures var r := RunFrom(spec, toU, table, line, lines, oc);
      && |lines| <= |r.lines| && r.lines[..|lines|] == lines
      && (r.fault.None? ==> |r.lines| == |lines| + |spec| - line)
      && (r.fault.Some? ==> line <= r.fault.value.line < |spec| && |r.lines| == |lines| + r.fault.value.line - line)
  {
    RunKeepsEarlierLines(spec, toU, table, line, lines, oc);
    RunWritesOneLinePerLine(spec, toU, table, line, lines, oc);
  }

  /** What one processed item changes in the state: the flags, the left
      comments, and the output columns of its own line only. */
  lemma StepEffect(spec: Grid, toU: bool, table: SymbolTable, line: nat, k: nat, st: LineState)
    requires AnchorsResolve(spec) && Fit(spec, line, k, st) && k < |spec[line]|
    requires ItemStep(spec, toU, table, line, k, st).Next?
    requires !Skipped(spec, line, k, st)
    ensures var st' := ItemStep(spec, toU, table, line, k, st).st;
      var tok := spec[line][k];
      var realign := NeedsRealign(spec, line, k, st);
      var row := if realign then ResetOutcols(st.outcol[line], st.leftComments.value) else st.outcol[line];
      && st'.keepLeftComments == (st.keepLeftComments || realign)
      && st'.onlyComments == (st.onlyComments && IsComment(tok))
      && st'.outcol == st.outcol[line := row[k := st'.outcol[line][k]]]
      && st'.leftComments
         == if IsComment(tok) && st'.onlyComments then Some(st.leftComments.value + [k])
            else if !IsComment(tok) && !st'.keepLeftComments then None
            else st.leftComments
  {
    var a := AlignPhase(spec, line, k, st);
    assert ItemStep(spec, toU, table, line, k, st) == PlacePhase(spec, toU, table, line, k, a);
  }

  /** One item writes only the output columns of its own line. */
  lemma StepTouchesOnlyItsLine(spec: Grid, toU: bool, table: SymbolTable, line: nat, k: nat, st: LineState)
    requires AnchorsResolve(spec) && Fit(spec, line, k, st) && k < |spec[line]|
    ensures forall l :: 0 <= l < |spec| && l != line ==> ItemStep(spec, toU, table, line, k, st).st.outcol[l] == st.outcol[l]
  {
    var r := ItemStep(spec, toU, table, line, k, st);
    if r.Next? && !Skipped(spec, line, k, st) {
      StepEffect(spec, toU, table, line, k, st);
    } else if r.Abort? && !Skipped(spec, line, k, st) && !(NeedsRealign(spec, line, k, st) && !toU) {
      var a := AlignPhase(spec, line, k, st);
      assert r == PlacePhase(spec, toU, table, line, k, a);
    }
  }

  /** A line writes only its own row of output columns: once a line is
      finished, its tokens' output columns are final. */
  lemma {:induction false} ItemsTouchOnlyTheirLine(spec: Grid, toU: bool, table: SymbolTable, line: nat, k: nat, st: LineState)
    requires AnchorsResolve(spec) && Fit(spec, line, k, st)
    ensures forall l :: 0 <= l < |spec| && l != line ==> ItemsFrom(spec, toU, table, line, k, st).st.outcol[l] == st.outcol[l]
    decreases |spec[line]| - k
  {
    if k < |spec[line]| {
      StepTouchesOnlyItsLine(spec, toU, table, line, k, st);
      match ItemStep(spec, toU, table, line, k, st)
      case Next(st') => ItemsTouchOnlyTheirLine(spec, toU, table, line, k + 1, st');
      case Abort(_, _, _) =>
    }
  }

  /** The lines already rewritten keep their output columns for the rest of
      the run, so an anchor on an earlier line is read at its final value. */
  lemma {:induction false} EarlierLinesFinal(spec: Grid, toU: bool, table: SymbolTable, line: nat, lines: seq<string>, oc: seq<seq<int>>)
    requires AnchorsResolve(spec) && Shaped(spec, oc) && line <= |spec|
    ensures forall l :: 0 <= l < line ==> RunFrom(spec, toU, table, line, lines, oc).outcol[l] == oc[l]
    decreases |spec| - line
  {
    if line < |spec| {
      ItemsTouchOnlyTheirLine(spec, toU, table, line, 0, Init(oc));
      match ConvertLine(spec, toU, table, line, oc)
      case Emitted(text, oc') => EarlierLinesFinal(spec, toU, table, line + 1, lines + [text], oc');
      case Failed(_, _, _) =>
    }
  }

  /** The first `k` item indices, in order. */
  function Indices(k: nat): (r: seq<nat>)
    ensures |r| == k && forall j :: 0 <= j < k ==> r[j] == j
  {
    if k == 0 then [] else Indices(k - 1) + [k - 1]
  }

  /** The bookkeeping of left comments after `k` items of line `line`: while
      only comments have been seen they are all left comments; after a
      realign the left comments are exactly the items before the first
      non-comment token, in order, and none of them has an output column;
      otherwise the list has been dropped. */
  ghost predicate LeftCommentsInv(spec: Grid, line: nat, k: nat, st: LineState)
    requires line < |spec| && Shaped(spec, st.outcol)
  {
    var toks := spec[line];
    var r := FirstNonComment(toks);
    && (st.onlyComments <==> k <= r)
    && (st.onlyComments ==> st.leftComments == Some(Indices(k)))
    && (st.keepLeftComments ==>
          r < k && st.leftComments == Some(Indices(r)) && forall j :: 0 <= j < r ==> st.outcol[line][j] == -1)
    && (!st.onlyComments && !st.keepLeftComments ==> st.leftComments == None)
  }

  lemma StepKeepsLeftCommentsInv(spec: Grid, toU: bool, table: SymbolTable, line: nat, k: nat, st: LineState)
    requires AnchorsResolve(spec) && Fit(spec, line, k, st) && k < |spec[line]|
    requires LeftCommentsInv(spec, line, k, st)
    requires ItemStep(spec, toU, table, line, k, st).Next?
    ensures LeftCommentsInv(spec, line, k + 1, ItemStep(spec, toU, table, line, k, st).st)
  {
    var toks := spec[line];
    var r := FirstNonComment(toks);
    var st' := ItemStep(spec, toU, table, line, k, st).st;
    if !Skipped(spec, line, k, st) {
      StepEffect(spec, toU, table, line, k, st);
      if NeedsRealign(spec, line, k, st) {
        assert k == r;
        var row := ResetOutcols(st.outcol[line], Indices(k));
        forall j | 0 <= j < r
          ensures st'.outcol[line][j] == -1
        {
          assert Indices(k)[j] == j && row[Indices(k)[j]] == -1;
        }
      } else if st.keepLeftComments {
        assert forall j :: 0 <= j < r ==> st'.outcol[line][j] == st.outcol[line][j];
      }
      if st.onlyComments && IsComment(toks[k]) {
        assert Indices(k + 1) == Indices(k) + [k];
      }
    }
  }

  lemma {:induction false} ItemsKeepLeftCommentsInv(spec: Grid, toU: bool, table: SymbolTable, line: nat, k: nat, st: LineState)
    requires AnchorsResolve(spec) && Fit(spec, line, k, st)
    requires LeftCommentsInv(spec, line, k, st)
    requires ItemsFrom(spec, toU, table, line, k, st).Next?
    ensures LeftCommentsInv(spec, line, |spec[line]|, ItemsFrom(spec, toU, table, line, k, st).st)
    decreases |spec[line]| - k
  {
    if k < |spec[line]| {
      StepKeepsLeftCommentsInv(spec, toU, table, line, k, st);
      ItemsKeepLeftCommentsInv(spec, toU, table, line, k + 1, ItemStep(spec, toU, table, line, k, st).st);
    }
  }

  /** No comment is lost or duplicated by a realign: when one fired on a
      finished line, every token before the first non-comment token is a
      comment, each of them appears once at the end of the line as a
      self-contained block, in original order, followed by the comment kept
      back from the end of the line, and none of them keeps an output
      column. Without a realign the buffer is the line. */
  lemma LeftCommentsMoveToEnd(spec: Grid, toU: bool, table: SymbolTable, line: nat, oc: seq<seq<int>>)
    requires AnchorsResolve(spec) && Shaped(spec, oc) && line < |spec|
    requires ItemsFrom(spec, toU, table, line, 0, Init(oc)).Next?
    ensures var st := ItemsFrom(spec, toU, table, line, 0, Init(oc)).st;
      var toks := spec[line];
      var r := FirstNonComment(toks);
      && (!st.keepLeftComments ==> FinishLine(spec, line, st) == st.out)
      && (st.keepLeftComments ==>
            && r < |toks|
            && (forall j :: 0 <= j < r ==> IsComment(toks[j]) && st.outcol[line][j] == -1)
            && var last := toks[|toks| - 1];
               FinishLine(spec, line, st)
               == st.out + DeferredAll(toks, Indices(r))
                  + (if OpensAtEnd(last) then " " + CommentText(last.kind.rsubtype, last.width, last.text) else []))
  {
    var st := ItemsFrom(spec, toU, table, line, 0, Init(oc)).st;
    assert LeftCommentsInv(spec, line, 0, Init(oc));
    ItemsKeepLeftCommentsInv(spec, toU, table, line, 0, Init(oc));
    if st.keepLeftComments {
      assert st.leftComments == Some(Indices(FirstNonComment(spec[line])));
    }
  }

  /** The emission of a token: the buffer is extended by exactly the
      token's text, no output column or flag changes, and the token joins
      the left comments exactly when it is a comment and only comments have
      been seen so far. */
  lemma EmitEffect(spec: Grid, toU: bool, table: SymbolTable, line: nat, item: nat, st: LineState)
    requires Framed(spec, line, item, st) && item < |spec[line]|
    ensures var r := EmitPhase(spec, toU, table, line, item, st);
      && |st.out| <= |r.out| && r.out[..|st.out|] == st.out
      && r.out[|st.out|..] == TokenText(spec[line][item], toU, table)
      && r.outcol == st.outcol && r.onlyComments == st.onlyComments && r.keepLeftComments == st.keepLeftComments
      && r.leftComments
         == if IsComment(spec[line][item]) && st.onlyComments then Some(st.leftComments.value + [item])
            else st.leftComments
  {
    var r := EmitPhase(spec, toU, table, line, item, st);
    assert r.out == st.out + TokenText(spec[line][item], toU, table);
    assert r.out[..|st.out|] == st.out;
  }

  /** The end-of-line flush only appends: the buffer stays at the head of the
      finished line, which is the buffer itself without a realign, and grows
      when there are left comments to move. */
  lemma FinishLineKeepsBuffer(spec: Grid, line: nat, st: LineState)
    requires line < |spec| && Fit(spec, line, |spec[line]|, st)
    ensures var r := FinishLine(spec, line, st);
      && |st.out| <= |r| && r[..|st.out|] == st.out
      && (!st.keepLeftComments ==> r == st.out)
      && (st.keepLeftComments && st.leftComments.value != [] ==> |r| > |st.out|)
  {
    if st.keepLeftComments {
      var toks := spec[line];
      var left := st.leftComments.value;
      var tail := DeferredAll(toks, left);
      var last := toks[|toks| - 1];
      var trailer := if OpensAtEnd(last) then " " + CommentText(last.kind.rsubtype, last.width, last.text) else [];
      assert FinishLine(spec, line, st) == st.out + (tail + trailer);
      if left != [] {
        DeferredAllConcat(toks, left[..|left| - 1], [left[|left| - 1]]);
        assert left[..|left| - 1] + [left[|left| - 1]] == left;
        DeferredRoundTrip(toks[left[|left| - 1]].text);
      }
    }
  }

  /** The placement phase: the spacing it uses, where the token lands, and
      what it appends. */
  lemma PlaceEffect(spec: Grid, toU: bool, table: SymbolTable, line: nat, item: nat, a: Aligned)
    requires Framed(spec, line, item, a.st) && item < |spec[line]|
    ensures var r := PlacePhase(spec, toU, table, line, item, a);
      var tok := spec[line][item];
      var sp := if a.space < 0 then FallbackSpace(spec[line], item) else a.space;
      && (sp < 0 ==> r == Abort(item, NegativeSpace, a.st))
      && (sp >= 0 ==> (r.Next? || r == Abort(item, ColumnDrift, r.st)) && r.st.outcol[line][item] == |a.st.out| + sp)
      && (r.Next? ==> r.st.out == a.st.out + Spaces(sp) + TokenText(tok, toU, table))
      && (r.Next? ==> r.st.outcol == a.st.outcol[line := a.st.outcol[line][item := r.st.outcol[line][item]]])
      && (r.Abort? && r.reason == ColumnDrift ==>
            r.st.outcol == a.st.outcol[line := a.st.outcol[line][item := r.st.outcol[line][item]]])
  {
  }

  /** Alignment is kept: a token whose anchor has its original column and a
      known output column, and that the buffer has not yet passed, lands
      exactly on the anchor's output column, padded with spaces. */
  lemma AlignedWithAnchor(spec: Grid, toU: bool, table: SymbolTable, line: nat, item: nat, st: LineState)
    requires AnchorsResolve(spec) && Fit(spec, line, item, st) && item < |spec[line]|
    requires !Skipped(spec, line, item, st)
    requires Anchored(spec, st.outcol, spec[line][item]).Some?
    requires |st.out| <= Anchored(spec, st.outcol, spec[line][item]).value
    ensures var r := ItemStep(spec, toU, table, line, item, st);
      var c := Anchored(spec, st.outcol, spec[line][item]).value;
      && (r.Next? || r == Abort(item, ColumnDrift, r.st))
      && r.st.outcol[line][item] == c
      && (r.Next? ==> r.st.out == st.out + Spaces(c - |st.out|) + TokenText(spec[line][item], toU, table))
  {
    PlaceEffect(spec, toU, table, line, item, AlignPhase(spec, line, item, st));
  }

  /** The realign: it fires only when converting to Unicode (otherwise the
      run aborts). The buffer is erased, down to a bare closing marker when
      the first left comment closes a block comment; every left comment loses
      its output column; and, when the marker fits before the anchor's output
      column, the token lands exactly on that column. */
  lemma RealignPlacesToken(spec: Grid, toU: bool, table: SymbolTable, line: nat, item: nat, st: LineState)
    requires AnchorsResolve(spec) && Fit(spec, line, item, st) && item < |spec[line]|
    requires NeedsRealign(spec, line, item, st)
    ensures var r := ItemStep(spec, toU, table, line, item, st);
      var c := Anchored(spec, st.outcol, spec[line][item]).value;
      var left := st.leftComments.value;
      var lead := if LeadsWithEndOverrun(spec[line], left) then "*)" else [];
      && (!toU ==> r == Abort(item, RealignUnderAscii, st))
      && (toU ==>
            && r.st.keepLeftComments
            && (forall j :: 0 <= j < |left| ==> r.st.outcol[line][left[j]] == -1)
            && (|lead| <= c ==>
                  && (r.Next? || r == Abort(item, ColumnDrift, r.st))
                  && r.st.outcol[line][item] == c
                  && (r.Next? ==> r.st.out == lead + Spaces(c - |lead|) + TokenText(spec[line][item], toU, table))))
  {
    if toU {
      var a := AlignPhase(spec, line, item, st);
      PlaceEffect(spec, toU, table, line, item, a);
      var left := st.leftComments.value;
      assert forall j :: 0 <= j < |left| ==> left[j] < item;
    }
  }

  /** Without a usable alignment the token keeps its original gap from its
      predecessor (its column, when it is first on the line); a negative gap
      aborts the run. */
  lemma FallbackSpacing(spec: Grid, toU: bool, table: SymbolTable, line: nat, item: nat, st: LineState)
    requires AnchorsResolve(spec) && Fit(spec, line, item, st) && item < |spec[line]|
    requires !Skipped(spec, line, item, st) && !NeedsRealign(spec, line, item, st)
    requires var an := Anchored(spec, st.outcol, spec[line][item]);
      an.None? || an.value < |st.out|
    ensures var r := ItemStep(spec, toU, table, line, item, st);
      var gap := FallbackSpace(spec[line], item);
      && (gap < 0 ==> r == Abort(item, NegativeSpace, st))
      && (gap >= 0 ==>
            && (r.Next? || r == Abort(item, ColumnDrift, r.st))
            && r.st.outcol[line][item] == |st.out| + gap
            && (r.Next? ==> r.st.out == st.out + Spaces(gap) + TokenText(spec[line][item], toU, table)))
  {
    PlaceEffect(spec, toU, table, line, item, AlignPhase(spec, line, item, st));
  }

  /** A placed token's output column is the buffer length just before its
      text, and it never lies right of its original column when converting
      to Unicode, nor left of it when converting to ASCII. */
  lemma PlacedColumn(spec: Grid, toU: bool, table: SymbolTable, line: nat, item: nat, st: LineState)
    requires AnchorsResolve(spec) && Fit(spec, line, item, st) && item < |spec[line]|
    requires !Skipped(spec, line, item, st)
    requires ItemStep(spec, toU, table, line, item, st).Next?
    ensures var st' := ItemStep(spec, toU, table, line, item, st).st;
      var c := st'.outcol[line][item];
      var tok := spec[line][item];
      && 0 <= c <= |st'.out|
      && st'.out[c..] == TokenText(tok, toU, table)
      && (toU ==> c <= tok.column)
      && (!toU ==> c >= tok.column)
  {
    var a := AlignPhase(spec, line, item, st);
    PlaceEffect(spec, toU, table, line, item, a);
  }

  /** The items `k` to `n - 1` of a line, in order: the item loop stopped
      before item `n`. */
  function ItemsBetween(spec: Grid, toU: bool, table: SymbolTable, line: nat, k: nat, n: nat, st: LineState): (r: Step)
    requires AnchorsResolve(spec) && Fit(spec, line, k, st) && k <= n <= |spec[line]|
    ensures r.Next? ==> Fit(spec, line, n, r.st)
    decreases n - k
  {
    if k == n then Next(st)
    else
      match ItemStep(spec, toU, table, line, k, st)
      case Next(st') => ItemsBetween(spec, toU, table, line, k + 1, n, st')
      case Abort(i, reason, st') => Abort(i, reason, st')
  }

  /** Running the item loop to the end of the line is running it up to the
      line's length. */
  lemma {:induction false} ItemsFromBetween(spec: Grid, toU: bool, table: SymbolTable, line: nat, k: nat, st: LineState)
    requires AnchorsResolve(spec) && Fit(spec, line, k, st)
    ensures ItemsFrom(spec, toU, table, line, k, st) == ItemsBetween(spec, toU, table, line, k, |spec[line]|, st)
    decreases |spec[line]| - k
  {
    if k < |spec[line]| {
      match ItemStep(spec, toU, table, line, k, st)
      case Next(st') => ItemsFromBetween(spec, toU, table, line, k + 1, st');
      case Abort(_, _, _) =>
    }
  }

  /** One more item is one more step after the items before it. */
  lemma {:induction false} ItemsBetweenLast(spec: Grid, toU: bool, table: SymbolTable, line: nat, k: nat, n: nat, st: LineState)
    requires AnchorsResolve(spec) && Fit(spec, line, k, st) && k <= n < |spec[line]|
    ensures ItemsBetween(spec, toU, table, line, k, n + 1, st)
            == match ItemsBetween(spec, toU, table, line, k, n, st)
               case Next(s) => ItemStep(spec, toU, table, line, n, s)
               case Abort(i, reason, s) => Abort(i, reason, s)
    decreases n - k
  {
    if k < n {
      match ItemStep(spec, toU, table, line, k, st)
      case Next(st') => ItemsBetweenLast(spec, toU, table, line, k + 1, n, st');
      case Abort(_, _, _) =>
    }
  }

  /** One item leaves the output columns of the later items of its line
      alone. */
  lemma StepLeavesLaterItems(spec: Grid, toU: bool, table: SymbolTable, line: nat, k: nat, st: LineState)
    requires AnchorsResolve(spec) && Fit(spec, line, k, st) && k < |spec[line]|
    requires ItemStep(spec, toU, table, line, k, st).Next?
    ensures forall j :: k < j < |spec[line]| ==> ItemStep(spec, toU, table, line, k, st).st.outcol[line][j] == st.outcol[line][j]
  {
    if !Skipped(spec, line, k, st) {
      StepEffect(spec, toU, table, line, k, st);
      if NeedsRealign(spec, line, k, st) {
        var left := st.leftComments.value;
        forall j | k < j < |spec[line]|
          ensures ResetOutcols(st.outcol[line], left)[j] == st.outcol[line][j]
        {
          assert j !in left;
        }
      }
    }
  }

  /** The items before `n` leave the output columns from item `n` on alone. */
  lemma {:induction false} ItemsBetweenLeaveLaterItems(spec: Grid, toU: bool, table: SymbolTable, line: nat, k: nat, n: nat, st: LineState)
    requires AnchorsResolve(spec) && Fit(spec, line, k, st) && k <= n <= |spec[line]|
    requires ItemsBetween(spec, toU, table, line, k, n, st).Next?
    ensures forall j :: n <= j < |spec[line]| ==> ItemsBetween(spec, toU, table, line, k, n, st).st.outcol[line][j] == st.outcol[line][j]
    decreases n - k
  {
    if k < n {
      StepLeavesLaterItems(spec, toU, table, line, k, st);
      ItemsBetweenLeaveLaterItems(spec, toU, table, line, k + 1, n, ItemStep(spec, toU, table, line, k, st).st);
    }
  }

  /** The step of a final opened-block or line comment never starts a
      realign. */
  lemma LastCommentKeepsFlag(spec: Grid, toU: bool, table: SymbolTable, line: nat, st: LineState)
    requires AnchorsResolve(spec) && line < |spec| && 0 < |spec[line]| && Fit(spec, line, |spec[line]| - 1, st)
    requires OpensAtEnd(spec[line][|spec[line]| - 1])
    requires ItemStep(spec, toU, table, line, |spec[line]| - 1, st).Next?
    ensures ItemStep(spec, toU, table, line, |spec[line]| - 1, st).st.keepLeftComments == st.keepLeftComments
  {
    if !Skipped(spec, line, |spec[line]| - 1, st) {
      StepEffect(spec, toU, table, line, |spec[line]| - 1, st);
    }
  }

  /** After a realign, a final opened-block or line comment is held back from
      its place: the state the line ends in, buffer and output columns
      included, is the state reached after all the other tokens, so the
      buffer holds none of its text and it keeps the output column it had
      when the line began. FinishLine then appends it after the left
      comments (LeftCommentsMoveToEnd). */
  lemma KeptBackComment(spec: Grid, toU: bool, table: SymbolTable, line: nat, oc: seq<seq<int>>)
    requires AnchorsResolve(spec) && Shaped(spec, oc) && line < |spec|
    requires ItemsFrom(spec, toU, table, line, 0, Init(oc)).Next?
    ensures var st := ItemsFrom(spec, toU, table, line, 0, Init(oc)).st;
      var n := |spec[line]|;
      st.keepLeftComments ==>
        (OpensAtEnd(spec[line][n - 1]) ==>
           && ItemsBetween(spec, toU, table, line, 0, n - 1, Init(oc)) == Next(st)
           && st.outcol[line][n - 1] == oc[line][n - 1])
  {
    var n := |spec[line]|;
    var st := ItemsFrom(spec, toU, table, line, 0, Init(oc)).st;
    if st.keepLeftComments && OpensAtEnd(spec[line][n - 1]) {
      ItemsFromBetween(spec, toU, table, line, 0, Init(oc));
      ItemsBetweenLast(spec, toU, table, line, 0, n - 1, Init(oc));
      var s := ItemsBetween(spec, toU, table, line, 0, n - 1, Init(oc)).st;
      LastCommentKeepsFlag(spec, toU, table, line, s);
      assert Skipped(spec, line, n - 1, s);
      ItemsBetweenLeaveLaterItems(spec, toU, table, line, 0, n - 1, Init(oc));
    }
  }

  /** The left comments are written one block each, in list order: the
      deferred forms of two lists one after the other are those of the
      joined list, and one item gives exactly its own block. */
  lemma {:induction false} DeferredAllConcat(toks: seq<Token>, a: seq<nat>, b: seq<nat>)
    requires forall j :: 0 <= j < |a| ==> a[j] < |toks|
    requires forall j :: 0 <= j < |b| ==> b[j] < |toks|
    ensures forall j :: 0 <= j < |a + b| ==> (a + b)[j] < |toks|
    ensures DeferredAll(toks, a + b) == DeferredAll(toks, a) + DeferredAll(toks, b)
    ensures |a| == 1 ==> DeferredAll(toks, a) == Deferred(toks[a[0]].text)
    ensures a == [] ==> DeferredAll(toks, a) == []
    decreases |b|
  {
    if b == [] {
      assert a + b == a;
    } else {
      var b' := b[..|b| - 1];
      var last := Deferred(toks[b[|b| - 1]].text);
      DeferredAllConcat(toks, a, b');
      assert (a + b)[..|a + b| - 1] == a + b';
      assert (a + b)[|a + b| - 1] == b[|b| - 1];
      assert DeferredAll(toks, a + b) == DeferredAll(toks, a + b') + last;
      assert DeferredAll(toks, b) == DeferredAll(toks, b') + last;
    }
    if |a| == 1 {
      assert a[..0] == [];
    }
  }
}
