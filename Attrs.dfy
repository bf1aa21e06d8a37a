/**
 * Attribute lookup (`mod attr` of the attribute crate): where a statement keeps
 * its attributes, which of them is the doc comment, and removing it.
 */
module Attrs {
  import opened Wrappers
  import opened Ast

  /** The expression kinds whose attribute list the rewrite can edit. */
  predicate HasOwnAttrs(e: Expr) {
    !e.Verbatim? && !e.GuardWrap?
  }

  /**
   * `attr::from_expr`: the attribute list of an expression, or `None` for raw
   * `Verbatim` tokens. The inserted `wrap` call is a method call without
   * attributes.
   */
  function FromExpr(e: Expr): (r: Option<seq<Attr>>)
    ensures r.None? <==> e.Verbatim?
    ensures r.Some? ==> r.value == (if e.GuardWrap? then [] else e.attrs)
  {
    match e
    case Verbatim => None
    case GuardWrap(_) => Some([])
    case _ => Some(e.attrs)
  }

  /**
   * `attr::from_stmt`: a `let` has its own attribute list, an expression
   * statement uses its expression's, an item has none. Inserted statements
   * carry no attributes.
   */
  function FromStmt(s: Stmt): (r: Option<seq<Attr>>)
    ensures r.None? <==> s.Item? || ((s.ExprStmt? || s.Semi?) && s.expr.Verbatim?)
    ensures s.Local? ==> r == Some(s.attrs)
    ensures (s.ExprStmt? || s.Semi?) ==> r == FromExpr(s.expr)
    ensures IsSynthesized(s) ==> r == Some([])
  {
    match s
    case Local(attrs, _) => Some(attrs)
    case Item => None
    case ExprStmt(e) => FromExpr(e)
    case Semi(e) => FromExpr(e)
    case _ => Some([])
  }

  /** The name `doc` that `attr.path.is_ident("doc")` tests for. */
  predicate IsDoc(a: Attr) {
    a.path == "doc"
  }

  /** `attr::find_doc_attr_ind`: the index of the first doc attribute, if any. */
  function FindDocAttrInd(attrs: seq<Attr>): (r: Option<nat>)
    ensures r.None? <==> forall i :: 0 <= i < |attrs| ==> !IsDoc(attrs[i])
    ensures r.Some? ==>
      r.value < |attrs| && IsDoc(attrs[r.value]) &&
      forall i :: 0 <= i < r.value ==> !IsDoc(attrs[i])
  {
    if attrs == [] then None
    else if IsDoc(attrs[0]) then Some(0)
    else
      match FindDocAttrInd(attrs[1..])
      case None => None
      case Some(k) => Some(k + 1)
  }

  /** Replaces an expression's attribute list; the inserted `wrap` call only ever has none. */
  function WithExprAttrs(e: Expr, attrs: seq<Attr>): (r: Expr)
    requires FromExpr(e).Some? && (HasOwnAttrs(e) || attrs == [])
    ensures FromExpr(r) == Some(attrs)
  {
    match e
    case Await(_, base) => Await(attrs, base)
    case Async(_, body) => Async(attrs, body)
    case Block(_, body) => Block(attrs, body)
    case Node(kind, _, children) => Node(kind, attrs, children)
    case GuardWrap(_) => e
  }

  /** Whether a statement keeps an attribute list of its own that can take any attributes. */
  predicate StmtHasOwnAttrs(s: Stmt) {
    s.Local? || ((s.ExprStmt? || s.Semi?) && HasOwnAttrs(s.expr))
  }

  /** Writes through the list `from_stmt` returns: the statement with its attribute list replaced. */
  function WithAttrs(s: Stmt, attrs: seq<Attr>): (r: Stmt)
    requires FromStmt(s).Some? && (StmtHasOwnAttrs(s) || attrs == [])
    ensures FromStmt(r) == Some(attrs)
  {
    match s
    case Local(_, init) => Local(attrs, init)
    case ExprStmt(e) => ExprStmt(WithExprAttrs(e, attrs))
    case Semi(e) => Semi(WithExprAttrs(e, attrs))
    case _ => s
  }

  /** Writing back the list just read changes nothing, and a second write overrides the first. */
  lemma WithAttrsLaws(s: Stmt, a: seq<Attr>, b: seq<Attr>)
    requires FromStmt(s).Some?
    ensures WithAttrs(s, FromStmt(s).value) == s
    ensures StmtHasOwnAttrs(s) ==> WithAttrs(WithAttrs(s, a), b) == WithAttrs(s, b)
  {
  }

  /** `attrs.remove(ind)` applied to the list `from_stmt` returns. */
  function RemoveAttr(s: Stmt, ind: nat): (r: Stmt)
    requires FromStmt(s).Some? && ind < |FromStmt(s).value|
  {
    var attrs := FromStmt(s).value;
    WithAttrs(s, attrs[..ind] + attrs[ind + 1..])
  }

  /**
   * Removing the attribute at `ind` removes exactly that one: the others keep
   * their order, and putting the old list back gives the original statement.
   */
  lemma RemoveAttrExactlyOne(s: Stmt, ind: nat)
    requires FromStmt(s).Some? && ind < |FromStmt(s).value|
    ensures var attrs := FromStmt(s).value;
      FromStmt(RemoveAttr(s, ind)) == Some(attrs[..ind] + attrs[ind + 1..]) &&
      |FromStmt(RemoveAttr(s, ind)).value| == |attrs| - 1 &&
      multiset(FromStmt(RemoveAttr(s, ind)).value) + multiset{attrs[ind]} == multiset(attrs) &&
      WithAttrs(RemoveAttr(s, ind), attrs) == s
  {
    var attrs := FromStmt(s).value;
    assert attrs == attrs[..ind] + [attrs[ind]] + attrs[ind + 1..];
  }
}
