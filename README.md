# spandoc, modelled in Dafny

`spandoc` turns doc comments inside a Rust function into `tracing` spans. The
attribute macro `#[spandoc]` walks the function body block by block. Take any
statement whose first doc comment, once trimmed, starts with `SPANDOC: `. The
macro puts a span binding (`let __dummy_span = tracing::span!(...)`) and a
guard (`let __fancy_guard = spandoc::FancyGuard::new(&__dummy_span)`) in front
of that statement. It removes the doc attribute and wraps every `.await` of the
statement as `__fancy_guard.wrap(...)`, except those inside `async` blocks.
Unless the statement ends its block, the macro follows it with
`drop(__fancy_guard); drop(__dummy_span);`. At run time the guard enters the
span when it is made. It leaves the span while a wrapped future is suspended
and re-enters it afterwards. When dropped, it leaves the span only if it is
still inside.

The model has these modules:

- `Seqs`: counting the occurrences of a value in a sequence.
- `Str`: Rust's `trim`, `trim_start_matches` and `starts_with` on character sequences.
- `Args`: the comment splitter `split`, its backward brace scan `get_ranges` (a loop, proved against a specification function) and `split_str`.
- `Ast`: the part of `syn`'s syntax tree the macro looks at, plus the statements it inserts.
- `Attrs`: `attr::from_stmt`, `from_expr` and `find_doc_attr_ind`, and the removal of the found attribute.
- `Awaits`: the `InstrumentAwaits` fold, plus an inverse that peels the `wrap` calls off again.
- `Rewrite`: `fold_block` and its `as_span` closure.
  - The whole-tree rewrite is a function.
  - The per-block loop is a method proved against that function.
  - The macro entry point is also here.
- `Runtime`: `FancyGuard`.
  - The guard is a class whose methods update `entered` and a log of subscriber calls.
  - A pure state machine specifies the class, and the enter/exit balance is proved on that machine.

The transform never rejects a statement. It emits `FancyGuard::new` for every
annotated statement, whether or not the statement awaits, and it wraps every
await of that statement outside `async` blocks
(spandoc-attribute/src/lib.rs:74-83, 157-175).

## Model

| member | source | states |
|---|---|---|
| Str.Trim | spandoc-attribute/src/lib.rs:263 | the trimmed text sits inside the input with only whitespace before and after it, and neither starts nor ends with whitespace |
| Str.TrimOf | spandoc-attribute/src/lib.rs:263 | whitespace, then a core that neither starts nor ends with whitespace, then whitespace, trims to exactly that core |
| Str.TrimStartMatches | spandoc-attribute/src/lib.rs:269 | the result is a suffix of the input, what was removed is whole copies of the pattern, and the rest no longer starts with the pattern; an empty pattern removes nothing |
| Str.StripsOneMarker | spandoc-attribute/src/lib.rs:269 | one marker in front of a rest that does not start with it is stripped to exactly that rest |
| Args.ScanBack | spandoc-attribute/src/lib.rs:297-308 | the backward scan stops, if at all, at an index it has read |
| Args.Ranges | spandoc-attribute/src/lib.rs:287-311 | when it succeeds, the field range ends at the last character (the closing brace) and the label range ends one before the field range starts |
| Args.ScanBackFinds | spandoc-attribute/src/lib.rs:297-308 | the scan returns the first index, from the right, whose suffix balances, and returns nothing when no suffix it reads balances |
| Args.RangesCharacterized | spandoc-attribute/src/lib.rs:287-311 | `get_ranges` fails exactly when the text does not end with `}` or no suffix balances. Otherwise `text[ind]` is `{`, the suffix from `ind` balances, every shorter suffix has more `}` than `{`, `ind` is the only such index, and the ranges are `0..ind` and `ind+1..len-1` |
| Args.GetRanges | spandoc-attribute/src/lib.rs:287-311 | the loop with its depth counter computes exactly `Ranges` |
| Args.InnerFieldsBalanced | spandoc-attribute/src/lib.rs:297-307 | the text strictly inside the outer braces balances, so nested braces stay inside the fields |
| Args.SplitStrReassembles | spandoc-attribute/src/lib.rs:314-324 | with fields, the text is the label source, `{`, the balanced fields and `}`, and the label is that source trimmed; without fields, the label is the whole text |
| Args.SplitStrOfComposed | spandoc-attribute/src/lib.rs:314-324 | the converse: a label source followed by a balanced field block in braces splits into the trimmed label and exactly that block |
| Args.LabelWithFields | spandoc-attribute/src/lib.rs:314-324 | a trimmed label, a space and a braced balanced block split into that label and that block |
| Args.LabelWithPlainFields | spandoc-attribute/src/lib.rs:314-324 | the same for a field block containing no braces |
| Args.SplitStr | spandoc-attribute/src/lib.rs:314-324 | specified by `SplitStrReassembles` and `SplitStrOfComposed`: the label and fields it returns reassemble the text, and every label followed by a braced balanced block splits back into exactly those |
| Args.Split | spandoc-attribute/src/lib.rs:261-285 | specified by `SplitNoneIff` and `SplitAnnotated`: nothing unless the trimmed comment starts with the marker, otherwise the text after all leading markers split as by `split_str` |
| Args.SplitNoneIff | spandoc-attribute/src/lib.rs:261-270 | `split` gives nothing exactly when the trimmed comment does not start with `SPANDOC: ` |
| Args.SplitAnnotated | spandoc-attribute/src/lib.rs:261-285 | an annotated comment, trimmed, is one or more markers followed by a rest not starting with the marker, and `split` returns that rest split as by `split_str` |
| Args.SplitOfMarked | spandoc-attribute/src/lib.rs:261-285 | leading whitespace, one marker and a trimmed rest give exactly the rest split as by `split_str` |
| Args.SplitStrNoArgs | spandoc-attribute/src/lib.rs:331-337 | the unit test `no_args`: the text comes back unchanged with no fields |
| Args.SplitStrWithArgs | spandoc-attribute/src/lib.rs:339-345 | the unit test `with_args`: the label before the braces and the text inside them |
| Args.SplitNestedFields | spandoc-attribute/src/lib.rs:261-311 | ` SPANDOC: Doing X {a: {1,2}}` splits into `Doing X` and `a: {1,2}`, nested braces included |
| Attrs.FromExpr | spandoc-attribute/src/lib.rs:205-250 | raw `Verbatim` tokens have no attribute list; every other expression kind has its own |
| Attrs.FromStmt | spandoc-attribute/src/lib.rs:196-203 | a `let` gives its attributes, an item gives none, an expression statement gives its expression's |
| Attrs.FindDocAttrInd | spandoc-attribute/src/lib.rs:252-254 | nothing exactly when no attribute is `doc`; otherwise the index of the first `doc` attribute |
| Attrs.WithAttrs | spandoc-attribute/src/lib.rs:196-203 | writing through the list `from_stmt` returns makes that the statement's list |
| Attrs.WithAttrsLaws | spandoc-attribute/src/lib.rs:196-203 | writing back the list just read changes nothing, and a second write overrides the first |
| Attrs.RemoveAttr | spandoc-attribute/src/lib.rs:151 | specified by `RemoveAttrExactlyOne`: the statement with exactly the attribute at `ind` removed |
| Attrs.RemoveAttrExactlyOne | spandoc-attribute/src/lib.rs:147-151 | `attrs.remove(ind)` removes exactly the attribute at `ind`, keeps the others in order, and putting the old list back gives the original statement |
| Awaits.Instrument | spandoc-attribute/src/lib.rs:67-84 | specified by `PeelInstrument`, `InstrumentCounts` and `InstrumentNoAwaits`: one `wrap` around the base of every await outside `async` blocks and nothing else |
| Awaits.InstrumentStmt | spandoc-attribute/src/lib.rs:152 | specified by `PeelInstrumentStmt` and `InstrumentCountsStmt`: the same for the statement `fold_stmt` instruments |
| Awaits.PeelInstrument | spandoc-attribute/src/lib.rs:67-84 | instrumenting loses nothing: peeling one `wrap` off every await outside `async` blocks gives the expression back |
| Awaits.PeelInstrumentStmt | spandoc-attribute/src/lib.rs:152 | the same for the statement that `fold_stmt` instruments |
| Awaits.InstrumentCounts | spandoc-attribute/src/lib.rs:67-84 | afterwards every await outside `async` blocks awaits a `wrap`, the number of awaits is unchanged, and exactly one `wrap` is added per such await, so `x.await.await` gets two |
| Awaits.InstrumentCountsStmt | spandoc-attribute/src/lib.rs:152 | the same for an instrumented statement |
| Awaits.InstrumentNoAwaits | spandoc-attribute/src/lib.rs:67-84 | an expression without awaits outside `async` blocks is left exactly as it was |
| Rewrite.SpanName | spandoc-attribute/src/lib.rs:117 | the span name is the function name followed by `::comment` |
| Rewrite.AsSpan | spandoc-attribute/src/lib.rs:106-116 | specified by `AsSpanSomeIff`: a span exactly for a name-value string attribute whose trimmed text starts with the marker |
| Rewrite.AsSpanSomeIff | spandoc-attribute/src/lib.rs:106-131 | `as_span` yields a span exactly when the attribute is a string whose trimmed text starts with the marker |
| Rewrite.Annotate | spandoc-attribute/src/lib.rs:133-148 | an annotation always names an attribute the statement has |
| Rewrite.AnnotateSpec | spandoc-attribute/src/lib.rs:133-148 | a statement is annotated exactly when its first doc attribute is a string whose trimmed text starts with the marker; the annotation is that attribute's index and what `split` makes of its text |
| Rewrite.Emit | spandoc-attribute/src/lib.rs:150-155 | an unannotated statement is emitted as it was, and the emitted statement is one of the inserted kinds exactly when the original is |
| Rewrite.EmitRemovesDocAttr | spandoc-attribute/src/lib.rs:147-152 | an annotated statement is emitted without exactly its doc attribute, the other attributes kept in order, and peeling the `wrap` calls off gives the statement with only that attribute removed |
| Rewrite.InstrumentKeepsAttrs | spandoc-attribute/src/lib.rs:67-84 | wrapping the awaits of a statement leaves its attribute list as it was |
| Rewrite.Piece | spandoc-attribute/src/lib.rs:157-175 | an unannotated statement gives one statement, an annotated one three when last in its block and five otherwise |
| Rewrite.EmitStmt | spandoc-attribute/src/lib.rs:133-177 | one loop iteration, early exits included, emits exactly the piece for the statement's annotation |
| Rewrite.LevelPrefix | spandoc-attribute/src/lib.rs:103-177 | specified by `LevelPrefixLength`, `PieceAt`, `EraseLevelPrefix` and `LevelPrefixGuards`: the pieces of the first k statements, in order |
| Rewrite.Level | spandoc-attribute/src/lib.rs:99-179 | specified by `RewriteLevel`, which computes it with the source's loop, and by the lemmas about `LevelPrefix` |
| Rewrite.RewriteLevel | spandoc-attribute/src/lib.rs:99-179 | the loop over a block's statements emits exactly the block's level rewrite |
| Rewrite.FoldBlock | spandoc-attribute/src/lib.rs:91-190 | specified by `RewriteBlock`, `FoldBlockShape` and `FoldBlockPlain`: the block's own statements in order with only spans, guards and drops added, and unchanged when nothing is annotated |
| Rewrite.RewriteBlock | spandoc-attribute/src/lib.rs:91-190 | `fold_block` keeps an empty block and otherwise rewrites nested blocks first and then the block itself |
| Rewrite.FoldExpr | spandoc-attribute/src/lib.rs:97 | rewriting nested blocks leaves an expression's own attributes as they were |
| Rewrite.FoldStmt | spandoc-attribute/src/lib.rs:97 | rewriting nested blocks leaves a statement's attributes, and whether it is an inserted one, as they were |
| Rewrite.AnnotationsFolded | spandoc-attribute/src/lib.rs:97-148 | rewriting nested blocks first does not change which statements of the block are annotated, nor how |
| Rewrite.LevelPrefixLength | spandoc-attribute/src/lib.rs:157-177 | a block of n statements becomes n + 4 per annotated statement, minus 2 when the last statement is annotated |
| Rewrite.PieceAt | spandoc-attribute/src/lib.rs:103-177 | statement order is kept: the piece of statement k starts right where the pieces of the statements before it end |
| Rewrite.LevelUnannotated | spandoc-attribute/src/lib.rs:133-145 | a block without annotated statements is emitted as it was |
| Rewrite.EraseLevelPrefix | spandoc-attribute/src/lib.rs:147-177 | erasing the inserted statements leaves the block's own statements in order, each annotated one without its doc attribute and with its awaits wrapped |
| Rewrite.LevelPrefixGuards | spandoc-attribute/src/lib.rs:157-177 | one guard per annotated statement. Every guard is dropped explicitly, together with its span, except the guard of an annotated last statement |
| Rewrite.FoldBlockPlain | spandoc-attribute/src/lib.rs:91-190 | a block with no annotation anywhere in it, nested blocks included, comes out unchanged |
| Rewrite.FoldBlockShape | spandoc-attribute/src/lib.rs:91-190 | for a non-empty block, the output is the block's statements as emitted, in order. Only spans, guards and drops are added: one guard per annotated statement, drops of all but the last statement's, and the exact length |
| Rewrite.Spandoc | spandoc-attribute/src/lib.rs:38-65 | the function keeps its name and attributes and gains `#[allow(clippy::cognitive_complexity)]` after them |
| Rewrite.SpandocPlain | spandoc-attribute/src/lib.rs:38-65 | a function without `SPANDOC: ` comments keeps its body exactly |
| Runtime.Created | src/lib.rs:157-163 | specified by `RunConsistent` (the empty run): a new guard has entered once and has `entered` set |
| Runtime.Step | src/lib.rs:165-185 | specified by `StepConsistent` and `StepOneAtATime`, and implemented by the `FancyGuard` methods, whose contracts each equal one step |
| Runtime.Run | src/lib.rs:155-185 | specified by `RunConsistent`, `RunOneAtATime` and `SequentialBalanced`: the guard after any sequence of operations |
| Runtime.StepConsistent | src/lib.rs:155-185 | every operation keeps the guard consistent. Each unfinished `wrap` has left the span once, and a drop while inside has left it once more. With no `wrap` unfinished, the guard is inside |
| Runtime.RunConsistent | src/lib.rs:155-185 | every guard reachable from `new` is consistent, however its wraps interleave |
| Runtime.StepOneAtATime | src/lib.rs:165-185 | if a `wrap` starts only while none is suspended, then at most one is suspended, and `entered` says whether none is |
| Runtime.RunOneAtATime | src/lib.rs:165-185 | the same for every run whose wraps do not overlap |
| Runtime.SequentialBalanced | src/lib.rs:155-185 | with wraps one at a time, a live guard is inside its span exactly when `entered` is set. A dropped guard has exited as often as it entered, also when the drop comes while a `wrap` is suspended |
| Runtime.NestedWrapsUnbalanced | src/lib.rs:165-185 | a `wrap` nested in another `wrap` of the same guard and abandoned leaves the span once more than it entered it |
| Runtime.FancyGuard.constructor | src/lib.rs:157-163 | `new` logs one enter and sets `entered` |
| Runtime.FancyGuard.BeginWrap | src/lib.rs:170-171 | before the await, `wrap` logs an exit and clears `entered` |
| Runtime.FancyGuard.EndWrap | src/lib.rs:172-175 | after the await, `wrap` logs an enter, sets `entered` and returns the future's output unchanged |
| Runtime.FancyGuard.Wrap | src/lib.rs:166-176 | a completed `wrap` returns the output unchanged, after exiting and then re-entering the span |
| Runtime.FancyGuard.Drop | src/lib.rs:179-185 | `drop` logs an exit if and only if `entered` is set |
| Runtime.AbandonedWrap | src/lib.rs:165-185 | a guard dropped while its `wrap` is suspended logs one enter and one exit |
| Runtime.CompletedWrap | src/lib.rs:165-185 | a guard whose `wrap` completed before the drop logs enter, exit, enter, exit |

## Left out

- Parsing with `syn` and `quote` is replaced by the abstract tree in `Ast`. This covers `parse_macro_input`, `quote_spanned!`, `parse2(..).unwrap()` and `Attribute::parse_meta`. Source spans and macro hygiene are bookkeeping, not behaviour.
- The tree keeps only the expression kinds that matter: `await`, `async`, block, `Verbatim`, the inserted `wrap` call, and one generic node for the remaining kinds of `from_expr`. The kinds that `from_expr` sends to its catch-all `None` are not told apart from the rest.
- Item statements are opaque. `syn`'s default fold would also rewrite the bodies of `fn` items nested in the function; the model does not.
- `split` parses the field text as tokens with `args.parse().unwrap()`, which panics on text that is not valid tokens (spandoc-attribute/src/lib.rs:278). The model keeps the fields as an opaque string.
- The `tracing::span!` expansion itself is not modelled; the inserted span binding records the name, fields and label.
- `get_ranges` counts characters but `split` slices the string by bytes. The model works on character sequences, which matches the code for ASCII text only.
- The tracing subscriber, `with_subscriber`, `instrument()` and future polling are abstracted into a log of enter and exit events for the guard's span. The enters and exits that `instrument()` does on each poll are not logged.
- `AtomicBool` with `Ordering::Relaxed` is a plain boolean field; it gives interior mutability, not concurrency.
- Runtime.SequentialBalanced: the balance of enters and exits is proved only when a guard's wraps do not overlap. A `wrap` nested in another `wrap` of the same guard can arise when an annotated statement contains a nested block with an annotated statement that awaits. Such a `wrap` exits twice before re-entering (Runtime.NestedWrapsUnbalanced).
- The `pending` and `live` fields of the guard are bookkeeping of the model. Dropping a guard twice or using it after the drop is ruled out by the methods' preconditions; in Rust the borrow checker rules these out.
