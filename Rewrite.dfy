/**
 * The `#[spandoc]` rewrite (`SpanInstrumentedExpressions::fold_block` and the
 * macro entry point): in every non-empty block, a statement whose first doc
 * comment starts with `SPANDOC: ` is preceded by a span and a guard that
 * enters it, has its awaits wrapped, and is followed by the guard's and the
 * span's drop unless it is the block's last statement.
 */
module Rewrite {
  import opened Wrappers
  import opened Ast
  import opened Str
  import opened Args
  import opened Attrs
  import opened Awaits
  import opened Seqs

  /** The span name `format!("{}::comment", ident)`. */
  function SpanName(ident: string): (r: string)
    ensures |r| == |ident| + 9 && r[..|ident|] == ident && r[|ident|..] == "::comment"
  {
    ident + "::comment"
  }

  /**
   * The `as_span` closure: a doc attribute that is a name-value string whose
   * text `split` accepts yields the span's label text and fields.
   */
  function AsSpan(a: Attr): Option<(string, Option<string>)> {
    match a.lit
    case None => None
    case Some(v) => Split(v)
  }

  /** `as_span` fails exactly when the attribute is not a string or its trimmed text lacks the marker. */
  lemma AsSpanSomeIff(a: Attr)
    ensures AsSpan(a).Some? <==> a.lit.Some? && StartsWith(Trim(a.lit.value), Marker)
  {
    if a.lit.Some? {
      SplitNoneIff(a.lit.value);
    }
  }

  /** What the rewrite reads off an annotated statement: the doc attribute's index, the label and the fields. */
  datatype Annotation = Annotation(ind: nat, text: string, fields: Option<string>)

  /** An annotation that names an attribute the statement has. */
  predicate Fits(s: Stmt, an: Option<Annotation>) {
    an.Some? ==> FromStmt(s).Some? && an.value.ind < |FromStmt(s).value|
  }

  /** A statement whose first doc attribute is a string starting, after trimming, with the marker. */
  predicate Marked(s: Stmt) {
    FromStmt(s).Some? && FindDocAttrInd(FromStmt(s).value).Some? &&
    var a := FromStmt(s).value[FindDocAttrInd(FromStmt(s).value).value];
    a.lit.Some? && StartsWith(Trim(a.lit.value), Marker)
  }

  /**
   * The three checks `fold_block` makes on a statement: it has attributes
   * (`from_stmt`), one of them is a doc attribute (`find_doc_attr_ind`) and
   * that attribute turns into a span (`as_span`).
   */
  function Annotate(s: Stmt): (r: Option<Annotation>)
    ensures Fits(s, r)
  {
    match FromStmt(s)
    case None => None
    case Some(attrs) =>
      match FindDocAttrInd(attrs)
      case None => None
      case Some(ind) =>
        match AsSpan(attrs[ind])
        case None => None
        case Some((text, fields)) => Some(Annotation(ind, text, fields))
  }

  /**
   * A statement is annotated exactly when it is marked, and then the
   * annotation is the first doc attribute's index and what `split` makes of
   * that attribute's text.
   */
  lemma AnnotateSpec(s: Stmt)
    ensures Annotate(s).Some? <==> Marked(s)
    ensures Annotate(s).Some? ==>
      var r := Annotate(s).value;
      var attrs := FromStmt(s).value;
      FindDocAttrInd(attrs) == Some(r.ind) && IsDoc(attrs[r.ind]) && attrs[r.ind].lit.Some? &&
      Split(attrs[r.ind].lit.value) == Some((r.text, r.fields))
  {
    var attrs := FromStmt(s);
    if attrs.Some? && FindDocAttrInd(attrs.value).Some? {
      AsSpanSomeIff(attrs.value[FindDocAttrInd(attrs.value).value]);
    }
  }

  /** The statement as it is emitted: an annotated one loses its doc attribute and has its awaits wrapped. */
  function Emit(s: Stmt, an: Option<Annotation>): (r: Stmt)
    requires Fits(s, an)
    ensures IsSynthesized(r) <==> IsSynthesized(s)
    ensures an.None? ==> r == s
  {
    match an
    case None => s
    case Some(a) => InstrumentStmt(RemoveAttr(s, a.ind))
  }

  /**
   * An annotated statement is emitted without exactly its doc attribute, the
   * others kept in order, and with its awaits wrapped: peeling the wraps off
   * gives the statement with only the attribute removed.
   */
  lemma EmitRemovesDocAttr(s: Stmt, a: Annotation)
    requires Fits(s, Some(a))
    ensures var attrs := FromStmt(s).value;
      FromStmt(Emit(s, Some(a))) == Some(attrs[..a.ind] + attrs[a.ind + 1..]) &&
      PeelStmt(Emit(s, Some(a))) == RemoveAttr(s, a.ind)
  {
    InstrumentKeepsAttrs(RemoveAttr(s, a.ind));
    PeelInstrumentStmt(RemoveAttr(s, a.ind));
  }

  /** Wrapping awaits does not touch the statement's attribute list. */
  lemma InstrumentKeepsAttrs(s: Stmt)
    ensures FromStmt(InstrumentStmt(s)) == FromStmt(s)
  {
  }

  /**
   * What one statement of a block becomes, given its annotation; `last` says
   * whether it is the block's last statement.
   */
  function Piece(ident: string, s: Stmt, an: Option<Annotation>, last: bool): (r: seq<Stmt>)
    requires Fits(s, an)
    ensures |r| == if an.None? then 1 else if last then 3 else 5
  {
    match an
    case None => [s]
    case Some(a) =>
      var open := [SpanLet(SpanName(ident), a.fields, a.text), GuardNew, Emit(s, an)];
      if last then open else open + [DropGuard, DropSpan]
  }

  /** One annotation per statement, each naming an attribute of its statement. */
  predicate AllFit(ss: seq<Stmt>, ans: seq<Option<Annotation>>) {
    |ans| == |ss| && forall i :: 0 <= i < |ss| ==> Fits(ss[i], ans[i])
  }

  /** The annotation of every statement of a block. */
  function Annotations(ss: seq<Stmt>): (ans: seq<Option<Annotation>>)
    ensures AllFit(ss, ans)
  {
    if ss == [] then [] else [Annotate(ss[0])] + Annotations(ss[1..])
  }

  /** Each statement's annotation is the one `Annotate` reads off it. */
  lemma {:induction false} AnnotationAt(ss: seq<Stmt>, i: nat)
    requires i < |ss|
    ensures Annotations(ss)[i] == Annotate(ss[i])
  {
    if i > 0 {
      AnnotationAt(ss[1..], i - 1);
    }
  }

  /** The statements emitted for the first `k` statements of the block `ss` annotated as `ans` says. */
  function LevelPrefix(ident: string, ss: seq<Stmt>, ans: seq<Option<Annotation>>, k: nat): seq<Stmt>
    requires AllFit(ss, ans) && k <= |ss|
  {
    if k == 0 then [] else LevelPrefix(ident, ss, ans, k - 1) + Piece(ident, ss[k - 1], ans[k - 1], k == |ss|)
  }

  /** The statements emitted for a whole block whose nested blocks are already rewritten. */
  function Level(ident: string, ss: seq<Stmt>): seq<Stmt> {
    LevelPrefix(ident, ss, Annotations(ss), |ss|)
  }

  /** `fold_block`: an empty block stays empty; otherwise nested blocks first, then this one. */
  function FoldBlock(ident: string, ss: seq<Stmt>): seq<Stmt>
    decreases ss, 1
  {
    if ss == [] then ss else Level(ident, FoldStmts(ident, ss))
  }

  /** The default `Fold` traversal, which reaches every nested block (also inside `async`). */
  function FoldExpr(ident: string, e: Expr): (r: Expr)
    ensures FromExpr(r) == FromExpr(e)
    decreases e, 0
  {
    match e
    case Await(attrs, base) => Await(attrs, FoldExpr(ident, base))
    case Async(attrs, body) => Async(attrs, FoldBlock(ident, body))
    case Block(attrs, body) => Block(attrs, FoldBlock(ident, body))
    case Node(kind, attrs, children) => Node(kind, attrs, FoldExprs(ident, children))
    case Verbatim => e
    case GuardWrap(inner) => GuardWrap(FoldExpr(ident, inner))
  }

  function FoldExprs(ident: string, es: seq<Expr>): (r: seq<Expr>)
    ensures |r| == |es|
    decreases es, 0
  {
    if es == [] then [] else [FoldExpr(ident, es[0])] + FoldExprs(ident, es[1..])
  }

  /** Rewriting nested blocks leaves a statement's own attributes, and so its annotation, as they were. */
  function FoldStmt(ident: string, s: Stmt): (r: Stmt)
    ensures FromStmt(r) == FromStmt(s)
    ensures IsSynthesized(r) <==> IsSynthesized(s)
    decreases s, 0
  {
    match s
    case Local(attrs, Some(init)) => Local(attrs, Some(FoldExpr(ident, init)))
    case ExprStmt(e) => ExprStmt(FoldExpr(ident, e))
    case Semi(e) => Semi(FoldExpr(ident, e))
    case _ => s
  }

  function FoldStmts(ident: string, ss: seq<Stmt>): (r: seq<Stmt>)
    ensures |r| == |ss|
    ensures forall i :: 0 <= i < |ss| ==> IsSynthesized(r[i]) == IsSynthesized(ss[i])
    ensures forall i :: 0 <= i < |ss| ==> FromStmt(r[i]) == FromStmt(ss[i])
    decreases ss, 0
  {
    if ss == [] then [] else [FoldStmt(ident, ss[0])] + FoldStmts(ident, ss[1..])
  }

  /**
   * One iteration of the loop of `fold_block`: the statements emitted for
   * `stmt`, with the early exits for a statement without attributes or
   * without a doc attribute.
   */
  method EmitStmt(ident: string, stmt: Stmt, isLast: bool) returns (piece: seq<Stmt>)
    ensures piece == Piece(ident, stmt, Annotate(stmt), isLast)
  {
    var attrs := FromStmt(stmt);
    if attrs.None? {
      return [stmt];
    }
    var ind := FindDocAttrInd(attrs.value);
    if ind.None? {
      return [stmt];
    }
    var span := AsSpan(attrs.value[ind.value]);
    AnnotateChecks(stmt, attrs.value, ind.value, span);
    var emitted := if span.Some? then InstrumentStmt(RemoveAttr(stmt, ind.value)) else stmt;
    match span {
      case Some((text, fields)) =>
        var open := [SpanLet(SpanName(ident), fields, text), GuardNew, emitted];
        piece := if isLast then open else open + [DropGuard, DropSpan];
      case None =>
        piece := [emitted];
    }
  }

  /** `Annotate` in terms of the outcomes of its three checks, when the first two succeed. */
  lemma AnnotateChecks(s: Stmt, attrs: seq<Attr>, ind: nat, span: Option<(string, Option<string>)>)
    requires FromStmt(s) == Some(attrs) && FindDocAttrInd(attrs) == Some(ind)
    requires ind < |attrs| && AsSpan(attrs[ind]) == span
    ensures span.None? ==> Annotate(s).None?
    ensures span.Some? ==> Annotate(s) == Some(Annotation(ind, span.value.0, span.value.1))
  {
  }

  /** `fold_block`: an empty block is kept; otherwise nested blocks are rewritten first, then this one. */
  method RewriteBlock(ident: string, stmts: seq<Stmt>) returns (out: seq<Stmt>)
    ensures out == FoldBlock(ident, stmts)
  {
    if stmts == [] {
      return stmts;
    }
    var folded := FoldStmts(ident, stmts);
    out := RewriteLevel(ident, folded);
  }

  /** The loop of `fold_block` over a block's statements after its nested blocks are rewritten. */
  method RewriteLevel(ident: string, folded: seq<Stmt>) returns (out: seq<Stmt>)
    ensures out == Level(ident, folded)
  {
    ghost var ans := Annotations(folded);
    var last := |folded| - 1;
    out := [];
    var i := 0;
    while i < |folded|
      invariant 0 <= i <= |folded|
      invariant out == LevelPrefix(ident, folded, ans, i)
    {
      var piece := EmitStmt(ident, folded[i], i == last);
      LevelStep(ident, folded, i, i == last, out, piece);
      out := out + piece;
      i := i + 1;
    }
  }

  /** The loop's step: appending the next statement's piece extends the output by one statement. */
  lemma LevelStep(ident: string, ss: seq<Stmt>, k: nat, isLast: bool, out: seq<Stmt>, piece: seq<Stmt>)
    requires k < |ss| && isLast == (k == |ss| - 1)
    requires out == LevelPrefix(ident, ss, Annotations(ss), k)
    requires piece == Piece(ident, ss[k], Annotate(ss[k]), isLast)
    ensures out + piece == LevelPrefix(ident, ss, Annotations(ss), k + 1)
  {
    AnnotationAt(ss, k);
  }

  /** The number of annotated statements among the first `k`. */
  function Annotated(ans: seq<Option<Annotation>>, k: nat): nat
    requires k <= |ans|
  {
    if k == 0 then 0 else Annotated(ans, k - 1) + (if ans[k - 1].Some? then 1 else 0)
  }

  /** Whether the last statement is annotated: its guard and span are not dropped explicitly. */
  predicate LastAnnotated(ans: seq<Option<Annotation>>) {
    ans != [] && ans[|ans| - 1].Some?
  }

  /**
   * Every annotated statement adds a span and a guard before it and two drops
   * after it, except the last statement, which adds no drops.
   */
  lemma {:induction false} LevelPrefixLength(ident: string, ss: seq<Stmt>, ans: seq<Option<Annotation>>, k: nat)
    requires AllFit(ss, ans) && k <= |ss|
    ensures |LevelPrefix(ident, ss, ans, k)| ==
      k + 4 * Annotated(ans, k) - (if k == |ss| && LastAnnotated(ans) then 2 else 0)
  {
    if k > 0 {
      LevelPrefixLength(ident, ss, ans, k - 1);
    }
  }

  lemma {:induction false} LevelPrefixGrows(ident: string, ss: seq<Stmt>, ans: seq<Option<Annotation>>, j: nat, k: nat)
    requires AllFit(ss, ans) && j <= k <= |ss|
    ensures |LevelPrefix(ident, ss, ans, j)| <= |LevelPrefix(ident, ss, ans, k)|
    ensures LevelPrefix(ident, ss, ans, k)[..|LevelPrefix(ident, ss, ans, j)|] == LevelPrefix(ident, ss, ans, j)
    decreases k - j
  {
    if j < k {
      LevelPrefixGrows(ident, ss, ans, j, k - 1);
    }
  }

  /**
   * Statement order is kept: the output of a block is the pieces of its
   * statements one after the other, the piece of statement `k` starting where
   * the pieces of the statements before it end.
   */
  lemma PieceAt(ident: string, ss: seq<Stmt>, ans: seq<Option<Annotation>>, k: nat)
    requires AllFit(ss, ans) && k < |ss|
    ensures var lo := |LevelPrefix(ident, ss, ans, k)|;
      var all := LevelPrefix(ident, ss, ans, |ss|);
      var p := Piece(ident, ss[k], ans[k], k == |ss| - 1);
      lo + |p| <= |all| && all[lo..lo + |p|] == p
  {
    LevelPrefixGrows(ident, ss, ans, k + 1, |ss|);
    var lo := |LevelPrefix(ident, ss, ans, k)|;
    var p := Piece(ident, ss[k], ans[k], k == |ss| - 1);
    assert LevelPrefix(ident, ss, ans, k + 1) == LevelPrefix(ident, ss, ans, k) + p;
    assert LevelPrefix(ident, ss, ans, k + 1)[lo..] == p;
  }

  /** A block without annotated statements is emitted as it was. */
  lemma {:induction false} LevelUnannotated(ident: string, ss: seq<Stmt>, ans: seq<Option<Annotation>>, k: nat)
    requires AllFit(ss, ans) && k <= |ss|
    requires forall i :: 0 <= i < k ==> ans[i].None?
    ensures LevelPrefix(ident, ss, ans, k) == ss[..k]
  {
    if k > 0 {
      LevelUnannotated(ident, ss, ans, k - 1);
      assert ss[..k] == ss[..k - 1] + [ss[k - 1]];
    }
  }

  /** The statements of `ss` that the rewrite did not insert, in order. */
  function Erase(ss: seq<Stmt>): (r: seq<Stmt>)
    ensures |r| <= |ss|
  {
    if ss == [] then []
    else Erase(ss[..|ss| - 1]) + (if IsSynthesized(ss[|ss| - 1]) then [] else [ss[|ss| - 1]])
  }

  lemma {:induction false} EraseAppend(a: seq<Stmt>, b: seq<Stmt>)
    ensures Erase(a + b) == Erase(a) + Erase(b)
    decreases |b|
  {
    if b == [] {
      assert a + b == a;
    } else {
      var b' := b[..|b| - 1];
      assert (a + b)[..|a + b| - 1] == a + b';
      EraseAppend(a, b');
    }
  }

  /** The first `k` statements as they are emitted, in order. */
  function EmitAll(ss: seq<Stmt>, ans: seq<Option<Annotation>>, k: nat): (r: seq<Stmt>)
    requires AllFit(ss, ans) && k <= |ss|
    ensures |r| == k
  {
    if k == 0 then [] else EmitAll(ss, ans, k - 1) + [Emit(ss[k - 1], ans[k - 1])]
  }

  lemma EraseTriple(x: Stmt, y: Stmt, z: Stmt)
    requires IsSynthesized(x) && IsSynthesized(y) && !IsSynthesized(z)
    ensures Erase([x, y, z]) == [z]
  {
    assert [x][..0] == [];
    assert Erase([x]) == [];
    assert [x, y][..1] == [x];
    assert Erase([x, y]) == [];
    assert [x, y, z][..2] == [x, y];
  }

  lemma EraseDrops()
    ensures Erase([DropGuard, DropSpan]) == []
  {
    assert [DropGuard, DropSpan][..1] == [DropGuard];
    assert [DropGuard][..0] == [];
  }

  /** Erasing the inserted statements from a piece leaves the emitted statement. */
  lemma ErasePiece(ident: string, s: Stmt, an: Option<Annotation>, last: bool)
    requires Fits(s, an) && !IsSynthesized(s)
    ensures Erase(Piece(ident, s, an, last)) == [Emit(s, an)]
  {
    var e := Emit(s, an);
    if an.None? {
      assert [e][..0] == [];
    } else {
      var open := [SpanLet(SpanName(ident), an.value.fields, an.value.text), GuardNew, e];
      EraseTriple(open[0], GuardNew, e);
      if !last {
        EraseDrops();
        EraseAppend(open, [DropGuard, DropSpan]);
      }
    }
  }

  /**
   * Nothing of the block is lost or reordered: once the inserted spans,
   * guards and drops are erased, what is left is the block's own statements,
   * each with its doc attribute removed and its awaits wrapped if annotated.
   */
  lemma {:induction false} EraseLevelPrefix(ident: string, ss: seq<Stmt>, ans: seq<Option<Annotation>>, k: nat)
    requires AllFit(ss, ans) && k <= |ss|
    requires forall i :: 0 <= i < |ss| ==> !IsSynthesized(ss[i])
    ensures Erase(LevelPrefix(ident, ss, ans, k)) == EmitAll(ss, ans, k)
  {
    if k > 0 {
      EraseLevelPrefix(ident, ss, ans, k - 1);
      EraseAppend(LevelPrefix(ident, ss, ans, k - 1), Piece(ident, ss[k - 1], ans[k - 1], k == |ss|));
      ErasePiece(ident, ss[k - 1], ans[k - 1], k == |ss|);
    }
  }

  /** 1 when `y` is `x`, else 0. */
  function Is(y: Stmt, x: Stmt): nat {
    if y == x then 1 else 0
  }

  lemma CountTriple(a: Stmt, b: Stmt, c: Stmt, x: Stmt)
    requires x == GuardNew || x == DropGuard || x == DropSpan
    ensures Count([a, b, c], x) == Is(a, x) + Is(b, x) + Is(c, x)
  {
    assert [a][..0] == [];
    assert Count([a], x) == Is(a, x);
    assert [a, b][..1] == [a];
    assert Count([a, b], x) == Is(a, x) + Is(b, x);
    assert [a, b, c][..2] == [a, b];
  }

  lemma CountDrops(x: Stmt)
    requires x == GuardNew || x == DropGuard || x == DropSpan
    ensures Count([DropGuard, DropSpan], x) == Is(DropGuard, x) + Is(DropSpan, x)
  {
    assert [DropGuard, DropSpan][..1] == [DropGuard];
    assert [DropGuard][..0] == [];
  }

  /** The guards and drops one piece contributes. */
  lemma PieceGuards(ident: string, s: Stmt, an: Option<Annotation>, last: bool, x: Stmt)
    requires Fits(s, an) && !IsSynthesized(s)
    requires x == GuardNew || x == DropGuard || x == DropSpan
    ensures Count(Piece(ident, s, an, last), x) ==
      if an.None? then 0
      else if x == GuardNew then 1
      else if last then 0
      else 1
  {
    var e := Emit(s, an);
    if an.None? {
      assert [e][..0] == [];
    } else {
      var open := [SpanLet(SpanName(ident), an.value.fields, an.value.text), GuardNew, e];
      CountTriple(open[0], GuardNew, e, x);
      if !last {
        CountDrops(x);
        CountAppend(open, [DropGuard, DropSpan], x);
      }
    }
  }

  /** How many statements equal to `x` the first `k` pieces hold: one per annotated statement, bar the last one's drops. */
  predicate CountedUpTo(ident: string, ss: seq<Stmt>, ans: seq<Option<Annotation>>, k: nat, x: Stmt)
    requires AllFit(ss, ans) && k <= |ss|
  {
    Count(LevelPrefix(ident, ss, ans, k), x) ==
      Annotated(ans, k) - (if x != GuardNew && k == |ss| && LastAnnotated(ans) then 1 else 0)
  }

  /** The count of one kind of inserted statement grows piece by piece. */
  lemma LevelPrefixCountStep(ident: string, ss: seq<Stmt>, ans: seq<Option<Annotation>>, k: nat, x: Stmt)
    requires AllFit(ss, ans) && 0 < k <= |ss| && !IsSynthesized(ss[k - 1])
    requires x == GuardNew || x == DropGuard || x == DropSpan
    requires CountedUpTo(ident, ss, ans, k - 1, x)
    ensures CountedUpTo(ident, ss, ans, k, x)
  {
    var prev := LevelPrefix(ident, ss, ans, k - 1);
    var p := Piece(ident, ss[k - 1], ans[k - 1], k == |ss|);
    assert LevelPrefix(ident, ss, ans, k) == prev + p;
    CountAppend(prev, p, x);
    PieceGuards(ident, ss[k - 1], ans[k - 1], k == |ss|, x);
  }

  /** The count of one kind of inserted statement in the first `k` pieces. */
  lemma {:induction false} LevelPrefixCount(ident: string, ss: seq<Stmt>, ans: seq<Option<Annotation>>, k: nat, x: Stmt)
    requires AllFit(ss, ans) && k <= |ss|
    requires forall i :: 0 <= i < |ss| ==> !IsSynthesized(ss[i])
    requires x == GuardNew || x == DropGuard || x == DropSpan
    ensures CountedUpTo(ident, ss, ans, k, x)
  {
    if k > 0 {
      LevelPrefixCount(ident, ss, ans, k - 1, x);
      LevelPrefixCountStep(ident, ss, ans, k, x);
    }
  }

  /**
   * One guard is created per annotated statement, and every one of them but
   * that of an annotated last statement is dropped explicitly, and with it its span.
   */
  lemma LevelPrefixGuards(ident: string, ss: seq<Stmt>, ans: seq<Option<Annotation>>, k: nat)
    requires AllFit(ss, ans) && k <= |ss|
    requires forall i :: 0 <= i < |ss| ==> !IsSynthesized(ss[i])
    ensures Count(LevelPrefix(ident, ss, ans, k), GuardNew) == Annotated(ans, k)
    ensures Count(LevelPrefix(ident, ss, ans, k), DropGuard) ==
      Annotated(ans, k) - (if k == |ss| && LastAnnotated(ans) then 1 else 0)
    ensures Count(LevelPrefix(ident, ss, ans, k), DropSpan) == Count(LevelPrefix(ident, ss, ans, k), DropGuard)
  {
    LevelPrefixCount(ident, ss, ans, k, GuardNew);
    LevelPrefixCount(ident, ss, ans, k, DropGuard);
    LevelPrefixCount(ident, ss, ans, k, DropSpan);
  }

  /** A statement with no annotation anywhere in it, nested blocks included. */
  predicate PlainStmt(s: Stmt)
    decreases s, 1
  {
    Annotate(s).None? &&
    match s
    case Local(_, Some(init)) => Plain(init)
    case ExprStmt(e) => Plain(e)
    case Semi(e) => Plain(e)
    case _ => true
  }

  predicate PlainStmts(ss: seq<Stmt>)
    decreases ss, 2
  {
    forall i :: 0 <= i < |ss| ==> PlainStmt(ss[i])
  }

  predicate Plain(e: Expr)
    decreases e, 0
  {
    match e
    case Await(_, base) => Plain(base)
    case Async(_, body) => PlainStmts(body)
    case Block(_, body) => PlainStmts(body)
    case Node(_, _, children) => forall i :: 0 <= i < |children| ==> Plain(children[i])
    case Verbatim => true
    case GuardWrap(inner) => Plain(inner)
  }

  /** Code without `SPANDOC: ` doc comments comes out of the rewrite exactly as it went in. */
  lemma {:induction false} FoldPlain(ident: string, e: Expr)
    requires Plain(e)
    ensures FoldExpr(ident, e) == e
    decreases e, 0
  {
    match e
    case Await(_, base) => FoldPlain(ident, base);
    case Async(_, body) => FoldBlockPlain(ident, body);
    case Block(_, body) => FoldBlockPlain(ident, body);
    case Node(_, _, children) => FoldPlainExprs(ident, children);
    case Verbatim =>
    case GuardWrap(inner) => FoldPlain(ident, inner);
  }

  lemma {:induction false} FoldPlainExprs(ident: string, es: seq<Expr>)
    requires forall i :: 0 <= i < |es| ==> Plain(es[i])
    ensures FoldExprs(ident, es) == es
    decreases es, 0
  {
    if es != [] {
      FoldPlain(ident, es[0]);
      FoldPlainExprs(ident, es[1..]);
    }
  }

  lemma {:induction false} FoldPlainStmt(ident: string, s: Stmt)
    requires PlainStmt(s)
    ensures FoldStmt(ident, s) == s
    decreases s, 0
  {
    match s
    case Local(_, Some(init)) => FoldPlain(ident, init);
    case ExprStmt(e) => FoldPlain(ident, e);
    case Semi(e) => FoldPlain(ident, e);
    case _ =>
  }

  lemma {:induction false} FoldPlainStmts(ident: string, ss: seq<Stmt>)
    requires PlainStmts(ss)
    ensures FoldStmts(ident, ss) == ss
    decreases ss, 0
  {
    if ss != [] {
      FoldPlainStmt(ident, ss[0]);
      FoldPlainStmts(ident, ss[1..]);
    }
  }

  /** Rewriting nested blocks does not change which statements of a block are annotated, nor how. */
  lemma AnnotationsFolded(ident: string, ss: seq<Stmt>)
    ensures Annotations(FoldStmts(ident, ss)) == Annotations(ss)
  {
    var folded := FoldStmts(ident, ss);
    forall i | 0 <= i < |ss|
      ensures Annotations(folded)[i] == Annotations(ss)[i]
    {
      AnnotationAt(folded, i);
      AnnotationAt(ss, i);
      AnnotateByAttrs(folded[i], ss[i]);
    }
  }

  lemma AnnotateByAttrs(s: Stmt, t: Stmt)
    requires FromStmt(s) == FromStmt(t)
    ensures Annotate(s) == Annotate(t)
  {
  }

  lemma {:induction false} FoldBlockPlain(ident: string, ss: seq<Stmt>)
    requires PlainStmts(ss)
    ensures FoldBlock(ident, ss) == ss
    decreases ss, 1
  {
    if ss != [] {
      FoldPlainStmts(ident, ss);
      forall i | 0 <= i < |ss|
        ensures Annotations(ss)[i].None?
      {
        AnnotationAt(ss, i);
      }
      LevelUnannotated(ident, ss, Annotations(ss), |ss|);
    }
  }

  /**
   * A non-empty block is emitted as its statements, each with its doc
   * attribute removed and its awaits wrapped if annotated, in order, with
   * nothing but spans, guards and drops inserted: one span and one guard per
   * annotated statement, and a drop of each except after the last statement.
   */
  lemma FoldBlockShape(ident: string, ss: seq<Stmt>)
    requires ss != []
    requires forall i :: 0 <= i < |ss| ==> !IsSynthesized(ss[i])
    ensures var folded := FoldStmts(ident, ss);
      var ans := Annotations(ss);
      var out := FoldBlock(ident, ss);
      Erase(out) == EmitAll(folded, ans, |ss|) &&
      Count(out, GuardNew) == Annotated(ans, |ss|) &&
      Count(out, DropGuard) == Annotated(ans, |ss|) - (if LastAnnotated(ans) then 1 else 0) &&
      Count(out, DropSpan) == Count(out, DropGuard) &&
      |out| == |ss| + 4 * Annotated(ans, |ss|) - (if LastAnnotated(ans) then 2 else 0)
  {
    var folded := FoldStmts(ident, ss);
    AnnotationsFolded(ident, ss);
    var ans := Annotations(ss);
    EraseLevelPrefix(ident, folded, ans, |folded|);
    LevelPrefixGuards(ident, folded, ans, |folded|);
    LevelPrefixLength(ident, folded, ans, |folded|);
  }

  /** `#[allow(clippy::cognitive_complexity)]`, which the macro adds to the function. */
  const AllowCognitiveComplexity: Attr := Attr("allow", None)

  /**
   * The macro entry point: the function keeps its name and attributes, gains
   * the `allow` attribute, and has its body rewritten block by block.
   */
  function Spandoc(f: ItemFn): (r: ItemFn)
    ensures r.ident == f.ident
    ensures |r.attrs| == |f.attrs| + 1 && r.attrs[..|f.attrs|] == f.attrs
    ensures r.attrs[|f.attrs|] == AllowCognitiveComplexity
  {
    ItemFn(f.attrs + [AllowCognitiveComplexity], f.ident, FoldBlock(f.ident, f.body))
  }

  /** A function without `SPANDOC: ` doc comments keeps its body exactly. */
  lemma SpandocPlain(f: ItemFn)
    requires PlainStmts(f.body)
    ensures Spandoc(f).body == f.body
  {
    FoldBlockPlain(f.ident, f.body);
  }
}
