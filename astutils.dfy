/** internal/astutils.go: the structural comparator the tests use to check a
    rewritten file against the expected one. It dispatches on the kind of the
    `got` node only, compares names, call targets, selectors, declarations and
    import paths, reports the first mismatch, and accepts every other kind. */
module AstUtils {
  import opened Ast

  /** Why two trees differ: the error kinds of the comparator, with the
      wrapping that gives the path to the first mismatch. */
  datatype Mismatch =
    | TypeMismatch(gotKind: Kind, wantKind: Kind)
    | NilMismatch
    | PackageNameMismatch(gotPkg: string, wantPkg: string)
    | IdentMismatch(gotName: string, wantName: string)
    | InFun(inner: Mismatch)                  // "function comparison failed"
    | InArgs(inner: Mismatch)                 // "arguments comparison failed"
    | InX(inner: Mismatch)                    // "selector X comparison failed"
    | InSel(inner: Mismatch)                  // "selector Sel comparison failed"
    | LengthMismatch(gotLen: nat, wantLen: nat)
    | AtIndex(index: nat, inner: Mismatch)    // "comparison failed at index i"
    | DeclTypeMismatch(expected: Kind, actual: Kind)
    | FuncNameMismatch(gotFunc: string, wantFunc: string)
    | TokenMismatch(gotTok: Token, wantTok: Token)
    | SpecTypeMismatch(gotSpec: Kind, wantSpec: Kind)
    | ImportPathMismatch(gotPath: string, wantPath: string)

  /** A nil error, or the error. */
  datatype Outcome = Ok | Err(mismatch: Mismatch)

  /** TypeComparator[T].Compare before it calls compareFunc: both nodes must
      have the comparator's kind. */
  function TypeCompare(k: Kind, got: Node, want: Node): (r: Outcome)
    ensures r == Ok <==> KindOf(got) == k && KindOf(want) == k
    ensures r != Ok ==> r == Err(TypeMismatch(KindOf(got), KindOf(want)))
  {
    if KindOf(got) != k then Err(TypeMismatch(KindOf(got), KindOf(want)))
    else if KindOf(want) != k then Err(TypeMismatch(KindOf(got), KindOf(want)))
    else Ok
  }

  /** The identifier comparator's compareFunc. */
  function CompareIdent(got: string, want: string): (r: Outcome)
    ensures r == Ok <==> got == want
  {
    if got != want then Err(IdentMismatch(got, want)) else Ok
  }

  /** The file comparator's compareFunc, shared by compareNode and compareAST. */
  function CompareFile(got: Node, want: Node): Outcome
    requires got.File? && want.File?
    decreases got, 0
  {
    if got.pkg != want.pkg then Err(PackageNameMismatch(got.pkg, want.pkg))
    else CompareDecls(got.decls, want.decls)
  }

  /** compareNode: nil handling, then dispatch on the kind of `got`. */
  function CompareNode(got: Node, want: Node): Outcome
    decreases got, 1
  {
    if got.Nil? || want.Nil? then
      if got.Nil? && want.Nil? then Ok else Err(NilMismatch)
    else
      match got
      case File(_, _) =>
        var t := TypeCompare(FileKind, got, want);
        if t.Err? then t else CompareFile(got, want)
      case Ident(name) =>
        var t := TypeCompare(IdentKind, got, want);
        if t.Err? then t else CompareIdent(name, want.name)
      case CallExpr(fun, args) =>
        var t := TypeCompare(CallExprKind, got, want);
        if t.Err? then t
        else (match CompareNode(fun, want.fun)
          case Err(e) => Err(InFun(e))
          case Ok =>
            match CompareExprs(args, want.args)
            case Err(e) => Err(InArgs(e))
            case Ok => Ok)
      case SelectorExpr(x, sel) =>
        var t := TypeCompare(SelectorExprKind, got, want);
        if t.Err? then t
        else (match CompareNode(x, want.x)
          case Err(e) => Err(InX(e))
          case Ok =>
            match CompareIdent(sel, want.sel)
            case Err(e) => Err(InSel(e))
            case Ok => Ok)
      case _ => Ok
  }

  /** compareSlice: lengths first, then the pairs in order, stopping at the
      first pair that fails. */
  function CompareSlice<T>(got: seq<T>, want: seq<T>, cmp: (T, T) --> Outcome): (r: Outcome)
    requires forall i :: 0 <= i < |got| && i < |want| ==> cmp.requires(got[i], want[i])
    ensures |got| != |want| ==> r == Err(LengthMismatch(|got|, |want|))
    ensures |got| == |want| ==> (r == Ok <==> forall i :: 0 <= i < |got| ==> cmp(got[i], want[i]) == Ok)
    ensures |got| == |want| && r != Ok ==> FailsFirstAt(got, want, cmp, r)
  {
    if |got| != |want| then Err(LengthMismatch(|got|, |want|))
    else ScanFrom(got, want, cmp, 0)
  }

  /** `r` reports the first failing pair, by its index and its own error. */
  ghost predicate FailsFirstAt<T>(got: seq<T>, want: seq<T>, cmp: (T, T) --> Outcome, r: Outcome)
    requires |got| == |want| && forall i :: 0 <= i < |got| ==> cmp.requires(got[i], want[i])
  {
    && r.Err? && r.mismatch.AtIndex?
    && r.mismatch.index < |got|
    && cmp(got[r.mismatch.index], want[r.mismatch.index]) == Err(r.mismatch.inner)
    && forall j :: 0 <= j < r.mismatch.index ==> cmp(got[j], want[j]) == Ok
  }

  /** The for loop of compareSlice from index i on. */
  function ScanFrom<T>(got: seq<T>, want: seq<T>, cmp: (T, T) --> Outcome, i: nat): (r: Outcome)
    requires |got| == |want| && i <= |got|
    requires forall j :: 0 <= j < |got| ==> cmp.requires(got[j], want[j])
    requires forall j :: 0 <= j < i ==> cmp(got[j], want[j]) == Ok
    ensures r == Ok <==> forall j :: i <= j < |got| ==> cmp(got[j], want[j]) == Ok
    ensures r != Ok ==> FailsFirstAt(got, want, cmp, r)
    decreases |got| - i
  {
    if i == |got| then Ok
    else match cmp(got[i], want[i])
      case Err(e) => Err(AtIndex(i, e))
      case Ok => ScanFrom(got, want, cmp, i + 1)
  }

  /** compareExprs. */
  function CompareExprs(got: seq<Node>, want: seq<Node>): Outcome
    decreases got, 0
  {
    CompareSlice(got, want, (g, w) requires g in got => CompareNode(g, w))
  }

  /** The element comparator of compareDecls: dispatch on the kind of `got`. */
  function CompareDecl(got: Node, want: Node): Outcome
    decreases got, 0
  {
    match got
    case FuncDecl(name, _, body) =>
      if !want.FuncDecl? then Err(DeclTypeMismatch(FuncDeclKind, KindOf(want)))
      else if name != want.name then Err(FuncNameMismatch(name, want.name))
      else CompareNode(body, want.body)
    case GenDecl(tok, specs) =>
      if !want.GenDecl? then Err(DeclTypeMismatch(GenDeclKind, KindOf(want)))
      else if tok != want.tok then Err(TokenMismatch(tok, want.tok))
      else CompareSpecs(specs, want.specs)
    case _ => Ok
  }

  /** compareDecls. */
  function CompareDecls(got: seq<Node>, want: seq<Node>): Outcome
    decreases got, 0
  {
    CompareSlice(got, want, (g, w) requires g in got => CompareDecl(g, w))
  }

  /** The element comparator of compareSpecs: only import specs are compared. */
  function CompareSpec(got: Node, want: Node): (r: Outcome)
    ensures r == Ok <==> !got.ImportSpec? || (want.ImportSpec? && got.path == want.path)
  {
    match got
    case ImportSpec(path) =>
      if !want.ImportSpec? then Err(SpecTypeMismatch(ImportSpecKind, KindOf(want)))
      else if path != want.path then Err(ImportPathMismatch(path, want.path))
      else Ok
    case _ => Ok
  }

  /** compareSpecs. */
  function CompareSpecs(got: seq<Node>, want: seq<Node>): Outcome
    decreases got, 0
  {
    CompareSlice(got, want, (g, w) => CompareSpec(g, w))
  }

  /** The file rule of compareAST, applied to the two parsed files. */
  function CompareAST(got: Node, want: Node): Outcome
  {
    var t := TypeCompare(FileKind, got, want);
    if t.Err? then t else CompareFile(got, want)
  }

  // ---------------------------------------------------------------------------
  // The reference reading: when two trees count as structurally equivalent

  ghost predicate Matches(got: Node, want: Node)
    decreases got, 1
  {
    if got.Nil? || want.Nil? then got.Nil? && want.Nil?
    else
      match got
      case File(_, _) => want.File? && FileMatches(got, want)
      case Ident(name) => want.Ident? && name == want.name
      case CallExpr(fun, args) =>
        && want.CallExpr? && Matches(fun, want.fun) && |args| == |want.args|
        && forall i :: 0 <= i < |args| ==> Matches(args[i], want.args[i])
      case SelectorExpr(x, sel) => want.SelectorExpr? && Matches(x, want.x) && sel == want.sel
      case _ => true
  }

  ghost predicate FileMatches(got: Node, want: Node)
    requires got.File? && want.File?
    decreases got, 0
  {
    && got.pkg == want.pkg && |got.decls| == |want.decls|
    && forall i :: 0 <= i < |got.decls| ==> DeclMatches(got.decls[i], want.decls[i])
  }

  ghost predicate DeclMatches(got: Node, want: Node)
    decreases got, 0
  {
    match got
    case FuncDecl(name, _, body) => want.FuncDecl? && name == want.name && Matches(body, want.body)
    case GenDecl(tok, specs) =>
      && want.GenDecl? && tok == want.tok && |specs| == |want.specs|
      && forall i :: 0 <= i < |specs| ==> CompareSpec(specs[i], want.specs[i]) == Ok
    case _ => true
  }

  // ---------------------------------------------------------------------------
  // The comparator decides the reference reading

  /** compareNode succeeds exactly on the pairs that match. */
  lemma {:induction false} CompareNodeOkIffMatches(got: Node, want: Node)
    ensures CompareNode(got, want) == Ok <==> Matches(got, want)
    decreases got, 1
  {
    if !got.Nil? && !want.Nil? {
      match got
      case File(_, _) =>
        if want.File? { CompareFileOkIffMatches(got, want); }
      case CallExpr(fun, args) =>
        if want.CallExpr? {
          CompareNodeOkIffMatches(fun, want.fun);
          CompareExprsOkIffMatches(args, want.args);
        }
      case SelectorExpr(x, _) =>
        if want.SelectorExpr? { CompareNodeOkIffMatches(x, want.x); }
      case _ =>
    }
  }

  lemma {:induction false} CompareExprsOkIffMatches(got: seq<Node>, want: seq<Node>)
    ensures CompareExprs(got, want) == Ok <==>
      |got| == |want| && forall i :: 0 <= i < |got| ==> Matches(got[i], want[i])
    decreases got, 0
  {
    if |got| == |want| {
      forall i | 0 <= i < |got| ensures CompareNode(got[i], want[i]) == Ok <==> Matches(got[i], want[i]) {
        CompareNodeOkIffMatches(got[i], want[i]);
      }
    }
  }

  lemma {:induction false} CompareFileOkIffMatches(got: Node, want: Node)
    requires got.File? && want.File?
    ensures CompareFile(got, want) == Ok <==> FileMatches(got, want)
    decreases got, 0
  {
    var gs, ws := got.decls, want.decls;
    if |gs| == |ws| {
      forall i | 0 <= i < |gs| ensures CompareDecl(gs[i], ws[i]) == Ok <==> DeclMatches(gs[i], ws[i]) {
        CompareDeclOkIffMatches(gs[i], ws[i]);
      }
    }
  }

  lemma {:induction false} CompareDeclOkIffMatches(got: Node, want: Node)
    ensures CompareDecl(got, want) == Ok <==> DeclMatches(got, want)
    decreases got, 0
  {
    match got
    case FuncDecl(_, _, body) =>
      if want.FuncDecl? { CompareNodeOkIffMatches(body, want.body); }
    case _ =>
  }

  // ---------------------------------------------------------------------------
  // Properties of the comparison

  /** Every tree matches itself. */
  lemma {:induction false} MatchesReflexive(t: Node)
    ensures Matches(t, t)
    decreases t, 1
  {
    match t
    case File(_, decls) =>
      forall i | 0 <= i < |decls| ensures DeclMatches(decls[i], decls[i]) {
        DeclMatchesReflexive(decls[i]);
      }
    case CallExpr(fun, args) =>
      MatchesReflexive(fun);
      forall i | 0 <= i < |args| ensures Matches(args[i], args[i]) {
        MatchesReflexive(args[i]);
      }
    case SelectorExpr(x, _) => MatchesReflexive(x);
    case _ =>
  }

  lemma {:induction false} DeclMatchesReflexive(d: Node)
    ensures DeclMatches(d, d)
    decreases d, 0
  {
    match d
    case FuncDecl(_, _, body) => MatchesReflexive(body);
    case _ =>
  }

  /** Comparing any tree with itself succeeds; so does comparing a file with
      itself at the top level. */
  lemma CompareReflexive(t: Node)
    ensures CompareNode(t, t) == Ok
    ensures t.File? ==> CompareAST(t, t) == Ok
  {
    MatchesReflexive(t);
    CompareNodeOkIffMatches(t, t);
    if t.File? {
      CompareFileOkIffMatches(t, t);
    }
  }

  /** Matching is transitive. */
  lemma {:induction false} MatchesTransitive(a: Node, b: Node, c: Node)
    requires Matches(a, b) && Matches(b, c)
    ensures Matches(a, c)
    decreases a, 1
  {
    if !a.Nil? && !b.Nil? && !c.Nil? {
      match a
      case File(_, ds) =>
        forall i | 0 <= i < |ds| ensures DeclMatches(ds[i], c.decls[i]) {
          DeclMatchesTransitive(ds[i], b.decls[i], c.decls[i]);
        }
      case CallExpr(fun, args) =>
        MatchesTransitive(fun, b.fun, c.fun);
        forall i | 0 <= i < |args| ensures Matches(args[i], c.args[i]) {
          MatchesTransitive(args[i], b.args[i], c.args[i]);
        }
      case SelectorExpr(x, _) => MatchesTransitive(x, b.x, c.x);
      case _ =>
    }
  }

  lemma {:induction false} DeclMatchesTransitive(a: Node, b: Node, c: Node)
    requires DeclMatches(a, b) && DeclMatches(b, c)
    ensures DeclMatches(a, c)
    decreases a, 0
  {
    match a
    case FuncDecl(_, _, body) => MatchesTransitive(body, b.body, c.body);
    case GenDecl(_, specs) =>
      forall i | 0 <= i < |specs| ensures CompareSpec(specs[i], c.specs[i]) == Ok {
        assert CompareSpec(specs[i], b.specs[i]) == Ok && CompareSpec(b.specs[i], c.specs[i]) == Ok;
      }
    case _ =>
  }

  /** Two comparisons that succeed chain into one that succeeds. */
  lemma CompareTransitive(a: Node, b: Node, c: Node)
    requires CompareNode(a, b) == Ok && CompareNode(b, c) == Ok
    ensures CompareNode(a, c) == Ok
  {
    CompareNodeOkIffMatches(a, b);
    CompareNodeOkIffMatches(b, c);
    MatchesTransitive(a, b, c);
    CompareNodeOkIffMatches(a, c);
  }

  /** Two nils match; a nil against a non-nil node fails, in either order. */
  lemma NilRule(n: Node)
    ensures CompareNode(Nil, Nil) == Ok
    ensures !n.Nil? ==> CompareNode(Nil, n) == Err(NilMismatch) && CompareNode(n, Nil) == Err(NilMismatch)
  {
  }

  /** A file, identifier, call or selector against a non-nil node of another
      kind fails with a type mismatch and compares nothing else. */
  lemma TypeMismatchRule(got: Node, want: Node)
    requires got.File? || got.Ident? || got.CallExpr? || got.SelectorExpr?
    requires !want.Nil? && KindOf(want) != KindOf(got)
    ensures CompareNode(got, want) == Err(TypeMismatch(KindOf(got), KindOf(want)))
  {
  }

  /** Every other kind of `got` is accepted against any non-nil node; the
      declaration and spec comparators accept every kind they do not know. */
  lemma DefaultArmsAccept(got: Node, want: Node)
    ensures !got.Nil? && !want.Nil? && !got.File? && !got.Ident? && !got.CallExpr? && !got.SelectorExpr?
      ==> CompareNode(got, want) == Ok
    ensures !got.FuncDecl? && !got.GenDecl? ==> CompareDecl(got, want) == Ok
    ensures !got.ImportSpec? ==> CompareSpec(got, want) == Ok
  {
  }

  /** Dispatch is on `got` alone, so the comparison is not symmetric. */
  lemma NotSymmetric()
    ensures CompareNode(Other([]), Ident("x")) == Ok
    ensures CompareNode(Ident("x"), Other([])) == Err(TypeMismatch(IdentKind, OtherKind))
    ensures CompareSpec(OtherSpec([]), ImportSpec("\"std\"")) == Ok
    ensures CompareSpec(ImportSpec("\"std\""), OtherSpec([])) == Err(SpecTypeMismatch(ImportSpecKind, OtherSpecKind))
  {
  }

  /** A function body reaches compareNode as a block statement, which takes the
      default arm: two functions of the same name match whatever their bodies
      and signatures. */
  lemma BodiesNotInspected(name: string, sig1: seq<Node>, body1: seq<Node>, sig2: seq<Node>, body2: seq<Node>)
    ensures CompareDecl(FuncDecl(name, sig1, BlockStmt(body1)), FuncDecl(name, sig2, BlockStmt(body2))) == Ok
  {
  }

  /** Files with different numbers of top-level declarations fail on the
      length, before any declaration is compared. */
  lemma DeclCountMismatch(pkg: string, d1: seq<Node>, d2: seq<Node>)
    requires |d1| != |d2|
    ensures CompareAST(File(pkg, d1), File(pkg, d2)) == Err(LengthMismatch(|d1|, |d2|))
  {
    assert CompareDecls(d1, d2) == Err(LengthMismatch(|d1|, |d2|));
  }
}
