# TLA+ ASCII/Unicode converter: the alignment-preserving line rewriter

This project models, in Dafny, the line rewriter of the TLA+ ASCII/Unicode
converter (`unicasc.TLAUnicode.convert` with its helpers `appendCommentToken`
and `appendSpaces`). The rewriter consumes a grid of tokens that is already
tokenized and classified. Each token has a type, its text, its original column
and width, and an `aboveAlign` anchor: a (line, item) pair, where line -1
means no anchor. Comment tokens also have a subtype. The rewriter emits one
output line per input line. On each line it:

- translates built-in symbols through the symbol table;
- puts each token on its anchor's output column wherever the spacing that
  needs is non-negative, and otherwise keeps the token's original gap from
  its predecessor;
- when the first non-comment token of a line cannot be aligned because only
  comments precede it, erases the line, puts the token on the anchor's output
  column, and moves those leading ("left") comments to the end of the line as
  `(* ... *)` blocks.

Files and modules:

- `options.dfy` (`Options`): the `Option` datatype.
- `tokens.dfy` (`Tokens`): the token grid, comment subtypes and anchors.
- `symbols.dfy` (`Symbols`): the symbol table, as a parameter with one
  partial map per direction.
- `emit.dfy` (`Emit`): the text of one token, of padding, and of a deferred
  comment.
- `rewrite.dfy` (`Rewrite`): the rewriter as functions. `ItemStep` is one pass
  of the item loop, `ItemsFrom` the rest of a line, `FinishLine` the
  end-of-line flush, `ConvertLine` one line, and `RunFrom`/`Convert` the grid.
- `output.dfy` (`Output`): the string buffer and the output sink as classes.
- `tlaunicode.dfy` (`TLAUnicode`): the rewriter as imperative code. It has the
  nested loops over lines and items, a `StringBuilder` per line, the
  `leftComments` list and its two flags. Every token's output column lives in
  an `array2<int>`. Each method is proved to compute exactly a function of
  the specification: the emission helpers (`AppendSpaces`,
  `AppendCommentToken`, `EmitToken`) match functions of `Emit`, and the
  others match functions of `Rewrite`.
- `properties.dfy` (`Properties`): what the rewriter promises, proved about
  the `Rewrite` functions.

The source's internal-consistency checks (`Debug.Assert` at
`TLAUnicode.java:146`, `:165` and `:175`) are modelled as aborting the run.
`Convert` returns the `Fault` (line, item, which check failed). The lines
before the faulty one stay written, the faulty line is not written, and the
writer is left open, because `convert` has no `finally` around `writer.close()`
(`TLAUnicode.java:232`).

## Model

| member | source | states |
|---|---|---|
| `Emit.Spaces` | tlatools/src/unicasc/TLAUnicode.java:259-262 | the padding appended for `n` is exactly `n` space characters, and nothing when `n` is not positive |
| `TLAUnicode.AppendSpaces` | tlatools/src/unicasc/TLAUnicode.java:259-262 | the loop appends exactly `Spaces(n)` to the buffer and leaves the earlier contents unchanged |
| `Emit.CommentRoundTrip` | tlatools/src/unicasc/TLAUnicode.java:235-253 | a comment emitted by subtype (NORMAL `(*s*)`, LINE `\*s`, BEGIN_OVERRUN `(*s`, END_OVERRUN `s*)`, OVERRUN `s`) gives back its text when the subtype's delimiters are stripped; a zero-width BEGIN_OVERRUN emits nothing |
| `TLAUnicode.AppendCommentToken` | tlatools/src/unicasc/TLAUnicode.java:235-257 | appends exactly the subtype's formatting of the comment (`CommentText`) |
| `Emit.TokenTextShape` | tlatools/src/unicasc/TLAUnicode.java:182-201 | a BUILTIN the table knows is emitted as its counterpart in the direction of conversion, and one it does not know passes through unchanged; a STRING is its text with a `"` on each side; NUMBER, IDENT, PCAL_LABEL, DASHES, END_MODULE, PROLOG, EPILOG and PF_STEP are emitted verbatim |
| `Emit.TranslationRoundTrip` | tlatools/src/unicasc/TLAUnicode.java:183-187 | with a table whose two directions undo each other, translating a known BUILTIN one way and then back restores its spelling |
| `Symbols.Lookup` | tlatools/src/unicasc/TLAUnicode.java:185 | the lookup succeeds exactly when the direction's map has the symbol, and then returns its counterpart |
| `TLAUnicode.EmitToken` | tlatools/src/unicasc/TLAUnicode.java:180-213 | appends `TokenText` of the token; a comment is added to the left comments exactly when only comments have been seen and the list is still alive |
| `TLAUnicode.AlignToken` | tlatools/src/unicasc/TLAUnicode.java:132-161 | computes `Rewrite.AlignPhase`: the anchor's spacing, or the realign (buffer erased, left comments' output columns reset to -1, `*)` kept for a leading END_OVERRUN); reports the realign needed under ASCII as a failure that changes nothing |
| `TLAUnicode.ResetLeftComments` | tlatools/src/unicasc/TLAUnicode.java:152-153 | sets the output column of every left comment of the line to -1 in the array and leaves every other token's column as it was (`Rewrite.ResetOutcols`) |
| `TLAUnicode.PadToken` | tlatools/src/unicasc/TLAUnicode.java:162-178 | computes `Rewrite.PadPhase`: the original gap when the anchor gave no usable spacing, an abort on a negative gap, exactly that many spaces, the token's output column recorded, and an abort when that column is on the wrong side of the original column for the direction |
| `TLAUnicode.PlaceToken` | tlatools/src/unicasc/TLAUnicode.java:162-213 | computes `Rewrite.PlacePhase`: fallback gap, negative-space check, padding, output column, direction check, emission |
| `TLAUnicode.RewriteItem` | tlatools/src/unicasc/TLAUnicode.java:117-214 | one pass of the item loop computes exactly `Rewrite.ItemStep`, including the aborts |
| `TLAUnicode.AppendLeftComments` | tlatools/src/unicasc/TLAUnicode.java:216-228 | appends each left comment as ` (*s*)` in order, then a space and the kept-back final BEGIN_OVERRUN or LINE comment |
| `TLAUnicode.RewriteLine` | tlatools/src/unicasc/TLAUnicode.java:111-230 | produces exactly `Rewrite.ConvertLine`: the finished line and the new output columns, or the item and check that failed |
| `TLAUnicode.Convert` | tlatools/src/unicasc/TLAUnicode.java:106-233 | the writer receives exactly the lines of `Rewrite.Convert`, in order, and the output columns are its table; without a fault there is one line per input line and the writer is closed; after a fault it stays open |
| `Rewrite.ItemStep` | tlatools/src/unicasc/TLAUnicode.java:117-214 | one pass of the item loop keeps the left comments earlier items of the line, keeps them alive while only comments have been seen and after a realign, and reports an abort at this item |
| `Rewrite.ItemsFrom` | tlatools/src/unicasc/TLAUnicode.java:117-214 | the item loop from item `k` to the end of the line either finishes with an output-column table still of the grid's shape, left comments that are items of the line, a live list while only comments were seen or after a realign, and a realign only after some item; or it aborts at an item between `k` and the last one |
| `Rewrite.ItemThenRest` | tlatools/src/unicasc/TLAUnicode.java:117-214 | one item followed by the rest of the loop: the same two outcomes as `ItemsFrom`, with the abort at item `k` or later |
| `Properties.EmitEffect` | tlatools/src/unicasc/TLAUnicode.java:180-213 | emitting a token (`Rewrite.EmitPhase`) extends the buffer by exactly `TokenText` of the token, changes no output column and no flag, and adds the item to the left comments exactly when it is a comment and only comments have been seen |
| `Emit.DeferredRoundTrip` | tlatools/src/unicasc/TLAUnicode.java:217-218 | a comment moved to the end of its line (`Emit.Deferred`) is a space followed by the NORMAL in-place form of its text, whatever its subtype, and stripping those delimiters gives the text back |
| `Properties.DeferredAllConcat` | tlatools/src/unicasc/TLAUnicode.java:216-218 | the moved comments are written one block each in list order (`Rewrite.DeferredAll`): the blocks of two lists one after the other are those of the joined list, one item gives exactly its own block, and no items give nothing |
| `Properties.FinishLineKeepsBuffer` | tlatools/src/unicasc/TLAUnicode.java:216-228 | the end-of-line flush (`Rewrite.FinishLine`) only appends: the buffer stays at the head of the finished line, is the whole line when no realign fired, and is strictly extended when there are left comments to move |
| `Rewrite.ResetOutcols` | tlatools/src/unicasc/TLAUnicode.java:152-153 | every left comment's output column becomes -1 and every other entry is unchanged |
| `Rewrite.RunFrom` | tlatools/src/unicasc/TLAUnicode.java:111-231 | rewriting the lines from `line` on keeps the output-column table the grid's shape |
| `Properties.RunLineCount` | tlatools/src/unicasc/TLAUnicode.java:111-232 | a run that completes writes exactly one line per input line after the earlier ones, in order; a run that aborts at line L writes exactly lines 0..L-1 |
| `Properties.ItemsTouchOnlyTheirLine` | tlatools/src/unicasc/TLAUnicode.java:152-153 | processing a line writes only the output columns of that line's tokens |
| `Properties.EarlierLinesFinal` | tlatools/src/unicasc/TLAUnicode.java:111-231 | once a line is finished its output columns never change again, so an anchor on an earlier line is read at its final value |
| `Properties.StepKeepsLeftCommentsInv` | tlatools/src/unicasc/TLAUnicode.java:113-115 | one item preserves the left-comment bookkeeping: all items so far while only comments are seen; exactly the items before the first non-comment token after a realign, with no output column; dropped otherwise |
| `Properties.LeftCommentsMoveToEnd` | tlatools/src/unicasc/TLAUnicode.java:125-130 | after a realign every token before the first non-comment token is a comment, each appears once at line end as ` (*s*)` in original order, followed by a space and the kept-back final BEGIN_OVERRUN or LINE comment, and none keeps an output column |
| `Properties.KeptBackComment` | tlatools/src/unicasc/TLAUnicode.java:125-130 | after a realign, a line ending in a BEGIN_OVERRUN or LINE comment ends in exactly the state reached after all its other tokens: the buffer holds none of that comment's text, and its output column is the one it had when the line began |
| `Properties.AlignedWithAnchor` | tlatools/src/unicasc/TLAUnicode.java:135-140 | an anchor with the same original column and output column >= 0 that the buffer has not passed puts the token exactly on the anchor's output column, after spaces |
| `Properties.RealignPlacesToken` | tlatools/src/unicasc/TLAUnicode.java:145-158 | a realign aborts under ASCII; under Unicode it erases the buffer down to `*)` when the first left comment is END_OVERRUN, resets every left comment's output column to -1, and puts the token exactly on the anchor's output column when the marker fits before it |
| `Properties.FallbackSpacing` | tlatools/src/unicasc/TLAUnicode.java:162-165 | without usable alignment the token keeps `column - (prev.column + prev.width)`, or `column` when first, from the buffer's end; a negative gap aborts |
| `Properties.PlacedColumn` | tlatools/src/unicasc/TLAUnicode.java:174-178 | a placed token's output column is the buffer length just before its text; it is <= its column under toU and >= it otherwise |

## Left out

- `main`, `getArguments` and `commandLineError` (TLAUnicode.java:81-104, 273-340) are left out: they are command-line parsing, path comparison and process exit.
- The tokenizer, proof-step detection, comment subtyping and alignment computation (`TokenizeSpec`, `Token.FindPfStepTokens`, `CommentToken.ProcessComments`, `FindAlignments`) are not part of this model. Their output, the token grid with its anchors and subtypes, is the input. Because of this, the known lost-comment bug of the tokenizer (TLAUnicode.java:45-46) is not modelled.
- The entries of the symbol table (`Unicode.a2u`/`u2a`) are not part of this model. The table is a parameter with one partial map per direction.
- `Token.getWidth` is not part of this model. A token's width is a field of the input.
- `OutputFileWriter` and file or standard-output I/O are not modelled. The writer is an object holding the sequence of lines put so far and a closed flag.
- `isInPcal` (TLAUnicode.java:264-269) is left out: nothing calls it, and it reads static state of the tokenizer.
- `tla2tex.Debug` is not part of this model. Its `Assert` is taken to abort the run, and the model returns a `Fault` in its place. The message text is not modelled.
- The `Debug.ReportBug` branches for an unknown token type or comment subtype (TLAUnicode.java:210-212, 254-255) cannot be reached: token types and subtypes are closed datatypes.
- Token objects with a mutable `outcolumn` field are modelled as immutable tokens plus one output-column table, `array2<int>`. Entries of the array beyond a line's length are padding and are not specified.
- `Rewrite.PadPhase`, `Rewrite.AlignPhase`, `Rewrite.NeedsRealign` and `TLAUnicode.PadToken`: buffer lengths and output columns are counted in characters (Unicode scalar values), whereas `StringBuilder.length()` at TLAUnicode.java:139 and :174 counts UTF-16 code units, as do the tokenizer's columns. On a line with a character outside the Basic Multilingual Plane (an emoji in a comment or a string, say), every later output column, and every spacing derived from one, is one less per such character than in the source.
- Alignment between two lines is stated one step at a time (`AlignedWithAnchor`) together with `EarlierLinesFinal`. There is no single whole-run lemma that quantifies over every anchored pair of tokens.
