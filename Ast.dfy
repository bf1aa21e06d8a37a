/**
 * The part of Rust's syntax tree (as the `syn` crate represents it) that the
 * `#[spandoc]` rewrite looks at, plus the statements and the expression that
 * the rewrite itself inserts.
 */
module Ast {
  import opened Wrappers

  /**
   * An outer attribute `#[path ...]`. `lit` is `Some(s)` exactly when the
   * attribute parses as `#[path = "s"]`, which is how a doc comment `/// s`
   * reaches the macro; every other shape (`#[doc(hidden)]`, a bare path, a
   * non-string value, tokens that do not parse) has `lit == None`.
   */
  datatype Attr = Attr(path: string, lit: Option<string>)

  /**
   * Expressions. `Await` and `Async` are the two kinds the await instrumenter
   * treats specially; `Block` is a block expression; `Node` stands for every
   * other expression kind (calls, `if`, `match`, loops, closures, ...) with its
   * sub-expressions, and a block that such a kind holds directly (the branches
   * of an `if`, the body of a loop) appears among them as a `Block` with no
   * attributes. `Verbatim` is raw tokens syn did not parse, and `GuardWrap(e)`
   * is the inserted call `__fancy_guard.wrap(e)`.
   */
  datatype Expr =
    | Await(attrs: seq<Attr>, base: Expr)
    | Async(attrs: seq<Attr>, body: seq<Stmt>)
    | Block(attrs: seq<Attr>, body: seq<Stmt>)
    | Node(kind: string, attrs: seq<Attr>, children: seq<Expr>)
    | Verbatim
    | GuardWrap(inner: Expr)

  /**
   * Statements: `let` bindings, item declarations (opaque here), expressions
   * without and with a trailing semicolon, and the four statements the rewrite
   * inserts around an annotated statement:
   * `let __dummy_span = tracing::span!(ERROR, name, fields, text = %text);`,
   * `let __fancy_guard = spandoc::FancyGuard::new(&__dummy_span);`,
   * `drop(__fancy_guard);` and `drop(__dummy_span);`.
   */
  datatype Stmt =
    | Local(attrs: seq<Attr>, init: Option<Expr>)
    | Item
    | ExprStmt(expr: Expr)
    | Semi(expr: Expr)
    | SpanLet(name: string, fields: Option<string>, text: string)
    | GuardNew
    | DropGuard
    | DropSpan

  /** The statements only the rewrite produces. */
  predicate IsSynthesized(s: Stmt) {
    s.SpanLet? || s.GuardNew? || s.DropGuard? || s.DropSpan?
  }

  /** The function item `#[spandoc]` is applied to: its attributes, its name and its body. */
  datatype ItemFn = ItemFn(attrs: seq<Attr>, ident: string, body: seq<Stmt>)
}
