/** The part of Go's syntax tree (package go/ast) that the renamer and the
    structural comparator look at, as a closed datatype. Every node kind that
    neither of them inspects is an `Other` node that keeps its children, so a
    walk still reaches every node below it. */
module Ast {

  /** The keyword token of a general declaration (go/token). */
  datatype Token = Import | Const | Type | Var

  datatype Node =
    | Nil                                             // a nil ast.Node interface value
    | File(pkg: string, decls: seq<Node>)             // *ast.File: package name and declarations
    | FuncDecl(name: string, sig: seq<Node>, body: Node)
      // *ast.FuncDecl: sig holds the receiver list and the function type in
      // walk order; body is the *ast.BlockStmt, so it is always a BlockStmt
      // (Nil here does not stand for a function without a body)
    | GenDecl(tok: Token, specs: seq<Node>)           // *ast.GenDecl
    | ImportSpec(path: string)                        // *ast.ImportSpec, path is the literal as written
    | OtherSpec(children: seq<Node>)                  // *ast.ValueSpec and *ast.TypeSpec
    | BlockStmt(stmts: seq<Node>)                     // *ast.BlockStmt
    | ExprStmt(x: Node)                               // *ast.ExprStmt
    | Ident(name: string)                             // *ast.Ident
    | SelectorExpr(x: Node, sel: string)              // *ast.SelectorExpr: x.sel, sel is Sel.Name
    | CallExpr(fun: Node, args: seq<Node>)            // *ast.CallExpr
    | Other(children: seq<Node>)                      // every other node kind

  /** The dynamic type of a node, as `%T` prints it in the comparator's errors. */
  datatype Kind =
    | NilKind | FileKind | FuncDeclKind | GenDeclKind | ImportSpecKind | OtherSpecKind
    | BlockStmtKind | ExprStmtKind | IdentKind | SelectorExprKind | CallExprKind | OtherKind

  function KindOf(n: Node): (k: Kind)
    ensures k == NilKind <==> n.Nil?
    ensures k == IdentKind <==> n.Ident?
    ensures k == SelectorExprKind <==> n.SelectorExpr?
    ensures k == CallExprKind <==> n.CallExpr?
    ensures k == FileKind <==> n.File?
    ensures k == FuncDeclKind <==> n.FuncDecl?
    ensures k == GenDeclKind <==> n.GenDecl?
    ensures k == ImportSpecKind <==> n.ImportSpec?
  {
    match n
    case Nil => NilKind
    case File(_, _) => FileKind
    case FuncDecl(_, _, _) => FuncDeclKind
    case GenDecl(_, _) => GenDeclKind
    case ImportSpec(_) => ImportSpecKind
    case OtherSpec(_) => OtherSpecKind
    case BlockStmt(_) => BlockStmtKind
    case ExprStmt(_) => ExprStmtKind
    case Ident(_) => IdentKind
    case SelectorExpr(_, _) => SelectorExprKind
    case CallExpr(_, _) => CallExprKind
    case Other(_) => OtherKind
  }
}
