/**
 * The await instrumenter (`InstrumentAwaits` of the attribute crate): inside
 * an annotated statement every `.await` gets its base wrapped as
 * `__fancy_guard.wrap(base)`, innermost first, without looking inside `async`
 * blocks, whose awaits belong to a separately scheduled future.
 */
module Awaits {
  import opened Wrappers
  import opened Ast

  /** `fold_expr_await` wraps the base after folding it; `fold_expr_async` returns the block untouched. */
  function Instrument(e: Expr): Expr {
    match e
    case Await(attrs, base) => Await(attrs, GuardWrap(Instrument(base)))
    case Async(_, _) => e
    case Block(attrs, body) => Block(attrs, InstrumentStmts(body))
    case Node(kind, attrs, children) => Node(kind, attrs, InstrumentExprs(children))
    case Verbatim => e
    case GuardWrap(inner) => GuardWrap(Instrument(inner))
  }

  function InstrumentExprs(es: seq<Expr>): (r: seq<Expr>)
    ensures |r| == |es|
  {
    if es == [] then [] else [Instrument(es[0])] + InstrumentExprs(es[1..])
  }

  /** `InstrumentAwaits.fold_stmt`: the statement with the awaits of its expression instrumented. */
  function InstrumentStmt(s: Stmt): Stmt {
    match s
    case Local(attrs, Some(init)) => Local(attrs, Some(Instrument(init)))
    case ExprStmt(e) => ExprStmt(Instrument(e))
    case Semi(e) => Semi(Instrument(e))
    case _ => s
  }

  function InstrumentStmts(ss: seq<Stmt>): (r: seq<Stmt>)
    ensures |r| == |ss|
  {
    if ss == [] then [] else [InstrumentStmt(ss[0])] + InstrumentStmts(ss[1..])
  }

  /**
   * The inverse of `Instrument`: removes one `wrap` from the base of every
   * await outside `async` blocks.
   */
  function Peel(e: Expr): Expr {
    match e
    case Await(attrs, GuardWrap(base)) => Await(attrs, Peel(base))
    case Await(attrs, base) => Await(attrs, Peel(base))
    case Async(_, _) => e
    case Block(attrs, body) => Block(attrs, PeelStmts(body))
    case Node(kind, attrs, children) => Node(kind, attrs, PeelExprs(children))
    case Verbatim => e
    case GuardWrap(inner) => GuardWrap(Peel(inner))
  }

  function PeelExprs(es: seq<Expr>): seq<Expr> {
    if es == [] then [] else [Peel(es[0])] + PeelExprs(es[1..])
  }

  function PeelStmt(s: Stmt): Stmt {
    match s
    case Local(attrs, Some(init)) => Local(attrs, Some(Peel(init)))
    case ExprStmt(e) => ExprStmt(Peel(e))
    case Semi(e) => Semi(Peel(e))
    case _ => s
  }

  function PeelStmts(ss: seq<Stmt>): seq<Stmt> {
    if ss == [] then [] else [PeelStmt(ss[0])] + PeelStmts(ss[1..])
  }

  /** Instrumenting loses nothing: peeling the wraps off gives the expression back. */
  lemma {:induction false} PeelInstrument(e: Expr)
    ensures Peel(Instrument(e)) == e
  {
    match e
    case Await(_, base) => PeelInstrument(base);
    case Async(_, _) =>
    case Block(_, body) => PeelInstrumentStmts(body);
    case Node(_, _, children) => PeelInstrumentExprs(children);
    case Verbatim =>
    case GuardWrap(inner) => PeelInstrument(inner);
  }

  lemma {:induction false} PeelInstrumentExprs(es: seq<Expr>)
    ensures PeelExprs(InstrumentExprs(es)) == es
  {
    if es != [] {
      PeelInstrument(es[0]);
      PeelInstrumentExprs(es[1..]);
    }
  }

  lemma {:induction false} PeelInstrumentStmt(s: Stmt)
    ensures PeelStmt(InstrumentStmt(s)) == s
  {
    match s
    case Local(_, Some(init)) => PeelInstrument(init);
    case ExprStmt(e) => PeelInstrument(e);
    case Semi(e) => PeelInstrument(e);
    case _ =>
  }

  lemma {:induction false} PeelInstrumentStmts(ss: seq<Stmt>)
    ensures PeelStmts(InstrumentStmts(ss)) == ss
  {
    if ss != [] {
      PeelInstrumentStmt(ss[0]);
      PeelInstrumentStmts(ss[1..]);
    }
  }

  /** Every await in the tree, inside `async` blocks or not. */
  function AwaitCount(e: Expr): nat {
    match e
    case Await(_, base) => 1 + AwaitCount(base)
    case Async(_, body) => AwaitCountStmts(body)
    case Block(_, body) => AwaitCountStmts(body)
    case Node(_, _, children) => AwaitCountExprs(children)
    case Verbatim => 0
    case GuardWrap(inner) => AwaitCount(inner)
  }

  function AwaitCountExprs(es: seq<Expr>): nat {
    if es == [] then 0 else AwaitCount(es[0]) + AwaitCountExprs(es[1..])
  }

  function AwaitCountStmt(s: Stmt): nat {
    match s
    case Local(_, Some(init)) => AwaitCount(init)
    case ExprStmt(e) => AwaitCount(e)
    case Semi(e) => AwaitCount(e)
    case _ => 0
  }

  function AwaitCountStmts(ss: seq<Stmt>): nat {
    if ss == [] then 0 else AwaitCountStmt(ss[0]) + AwaitCountStmts(ss[1..])
  }

  /** The awaits that are not inside an `async` block: the ones the instrumenter reaches. */
  function ExposedAwaits(e: Expr): nat {
    match e
    case Await(_, base) => 1 + ExposedAwaits(base)
    case Async(_, _) => 0
    case Block(_, body) => ExposedAwaitsStmts(body)
    case Node(_, _, children) => ExposedAwaitsExprs(children)
    case Verbatim => 0
    case GuardWrap(inner) => ExposedAwaits(inner)
  }

  function ExposedAwaitsExprs(es: seq<Expr>): nat {
    if es == [] then 0 else ExposedAwaits(es[0]) + ExposedAwaitsExprs(es[1..])
  }

  function ExposedAwaitsStmt(s: Stmt): nat {
    match s
    case Local(_, Some(init)) => ExposedAwaits(init)
    case ExprStmt(e) => ExposedAwaits(e)
    case Semi(e) => ExposedAwaits(e)
    case _ => 0
  }

  function ExposedAwaitsStmts(ss: seq<Stmt>): nat {
    if ss == [] then 0 else ExposedAwaitsStmt(ss[0]) + ExposedAwaitsStmts(ss[1..])
  }

  /** Every `wrap` call in the tree. */
  function WrapCount(e: Expr): nat {
    match e
    case Await(_, base) => WrapCount(base)
    case Async(_, body) => WrapCountStmts(body)
    case Block(_, body) => WrapCountStmts(body)
    case Node(_, _, children) => WrapCountExprs(children)
    case Verbatim => 0
    case GuardWrap(inner) => 1 + WrapCount(inner)
  }

  function WrapCountExprs(es: seq<Expr>): nat {
    if es == [] then 0 else WrapCount(es[0]) + WrapCountExprs(es[1..])
  }

  function WrapCountStmt(s: Stmt): nat {
    match s
    case Local(_, Some(init)) => WrapCount(init)
    case ExprStmt(e) => WrapCount(e)
    case Semi(e) => WrapCount(e)
    case _ => 0
  }

  function WrapCountStmts(ss: seq<Stmt>): nat {
    if ss == [] then 0 else WrapCountStmt(ss[0]) + WrapCountStmts(ss[1..])
  }

  /** Every await outside `async` blocks awaits a `wrap` call. */
  predicate AllWrapped(e: Expr) {
    match e
    case Await(_, base) => base.GuardWrap? && AllWrapped(base)
    case Async(_, _) => true
    case Block(_, body) => AllWrappedStmts(body)
    case Node(_, _, children) => AllWrappedExprs(children)
    case Verbatim => true
    case GuardWrap(inner) => AllWrapped(inner)
  }

  predicate AllWrappedExprs(es: seq<Expr>) {
    es == [] || (AllWrapped(es[0]) && AllWrappedExprs(es[1..]))
  }

  predicate AllWrappedStmt(s: Stmt) {
    match s
    case Local(_, Some(init)) => AllWrapped(init)
    case ExprStmt(e) => AllWrapped(e)
    case Semi(e) => AllWrapped(e)
    case _ => true
  }

  predicate AllWrappedStmts(ss: seq<Stmt>) {
    ss == [] || (AllWrappedStmt(ss[0]) && AllWrappedStmts(ss[1..]))
  }

  /**
   * After instrumenting, every await outside `async` blocks awaits a `wrap`,
   * there are as many awaits as before, and exactly one new `wrap` per await
   * outside `async` blocks (so `x.await.await` gets two).
   */
  lemma {:induction false} InstrumentCounts(e: Expr)
    ensures AllWrapped(Instrument(e))
    ensures AwaitCount(Instrument(e)) == AwaitCount(e)
    ensures WrapCount(Instrument(e)) == WrapCount(e) + ExposedAwaits(e)
  {
    match e
    case Await(_, base) => InstrumentCounts(base);
    case Async(_, _) =>
    case Block(_, body) => InstrumentCountsStmts(body);
    case Node(_, _, children) => InstrumentCountsExprs(children);
    case Verbatim =>
    case GuardWrap(inner) => InstrumentCounts(inner);
  }

  lemma {:induction false} InstrumentCountsExprs(es: seq<Expr>)
    ensures AllWrappedExprs(InstrumentExprs(es))
    ensures AwaitCountExprs(InstrumentExprs(es)) == AwaitCountExprs(es)
    ensures WrapCountExprs(InstrumentExprs(es)) == WrapCountExprs(es) + ExposedAwaitsExprs(es)
  {
    if es != [] {
      InstrumentCounts(es[0]);
      InstrumentCountsExprs(es[1..]);
      assert InstrumentExprs(es)[0] == Instrument(es[0]);
      assert InstrumentExprs(es)[1..] == InstrumentExprs(es[1..]);
    }
  }

  lemma {:induction false} InstrumentCountsStmt(s: Stmt)
    ensures AllWrappedStmt(InstrumentStmt(s))
    ensures AwaitCountStmt(InstrumentStmt(s)) == AwaitCountStmt(s)
    ensures WrapCountStmt(InstrumentStmt(s)) == WrapCountStmt(s) + ExposedAwaitsStmt(s)
  {
    match s
    case Local(_, Some(init)) => InstrumentCounts(init);
    case ExprStmt(e) => InstrumentCounts(e);
    case Semi(e) => InstrumentCounts(e);
    case _ =>
  }

  lemma {:induction false} InstrumentCountsStmts(ss: seq<Stmt>)
    ensures AllWrappedStmts(InstrumentStmts(ss))
    ensures AwaitCountStmts(InstrumentStmts(ss)) == AwaitCountStmts(ss)
    ensures WrapCountStmts(InstrumentStmts(ss)) == WrapCountStmts(ss) + ExposedAwaitsStmts(ss)
  {
    if ss != [] {
      InstrumentCountsStmt(ss[0]);
      InstrumentCountsStmts(ss[1..]);
      assert InstrumentStmts(ss)[0] == InstrumentStmt(ss[0]);
      assert InstrumentStmts(ss)[1..] == InstrumentStmts(ss[1..]);
    }
  }

  /** A tree without awaits outside `async` blocks is left exactly as it was. */
  lemma {:induction false} InstrumentNoAwaits(e: Expr)
    requires ExposedAwaits(e) == 0
    ensures Instrument(e) == e
  {
    match e
    case Await(_, _) =>
    case Async(_, _) =>
    case Block(_, body) => InstrumentNoAwaitsStmts(body);
    case Node(_, _, children) => InstrumentNoAwaitsExprs(children);
    case Verbatim =>
    case GuardWrap(inner) => InstrumentNoAwaits(inner);
  }

  lemma {:induction false} InstrumentNoAwaitsExprs(es: seq<Expr>)
    requires ExposedAwaitsExprs(es) == 0
    ensures InstrumentExprs(es) == es
  {
    if es != [] {
      InstrumentNoAwaits(es[0]);
      InstrumentNoAwaitsExprs(es[1..]);
    }
  }

  lemma {:induction false} InstrumentNoAwaitsStmt(s: Stmt)
    requires ExposedAwaitsStmt(s) == 0
    ensures InstrumentStmt(s) == s
  {
    match s
    case Local(_, Some(init)) => InstrumentNoAwaits(init);
    case ExprStmt(e) => InstrumentNoAwaits(e);
    case Semi(e) => InstrumentNoAwaits(e);
    case _ =>
  }

  lemma {:induction false} InstrumentNoAwaitsStmts(ss: seq<Stmt>)
    requires ExposedAwaitsStmts(ss) == 0
    ensures InstrumentStmts(ss) == ss
  {
    if ss != [] {
      InstrumentNoAwaitsStmt(ss[0]);
      InstrumentNoAwaitsStmts(ss[1..]);
    }
  }
}
