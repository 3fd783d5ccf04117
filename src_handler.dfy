/** The pure half of internal/src_handler.go: the test whether a receiver chain
    is rooted at the identifier `std`, the whole-tree rename that the in-place
    walk performs (its specification, see module Transformer), and the
    file-extension filter. */
module SrcHandler {
  import opened Ast

  /** The name mapping, old member name to new member name. */
  type Mapping = map<string, string>

  const StdName: string := "std"

  /** isStdChain: peel selector and call layers down to a terminal identifier
      and test whether it is `std`. Arguments of a call are never followed. */
  function IsStdChain(e: Node): bool
  {
    match e
    case Ident(name) => name == StdName
    case SelectorExpr(x, _) => IsStdChain(x)
    case CallExpr(fun, _) => IsStdChain(fun)
    case _ => false
  }

  /** One step down a receiver chain: into a selector's X or a call's Fun. */
  datatype Step = IntoX | IntoFun

  /** Follow a path of steps from `e`; None when a step does not apply. */
  function Follow(e: Node, path: seq<Step>): Option<Node>
    decreases |path|
  {
    if path == [] then Some(e)
    else match (e, path[0])
      case (SelectorExpr(x, _), IntoX) => Follow(x, path[1..])
      case (CallExpr(fun, _), IntoFun) => Follow(fun, path[1..])
      case _ => None
  }

  datatype Option<T> = None | Some(value: T)

  /** Reference reading of "rooted at std": some chain of receivers and callees
      leads from `e` to the identifier `std`. */
  ghost predicate RootedAtStd(e: Node)
  {
    exists path :: Follow(e, path) == Some(Ident(StdName))
  }

  /** The new name of selector `sel` whose receiver is `x`: renamed exactly when
      the receiver is std-rooted and the name is a key of the mapping. */
  function NewSel(x: Node, sel: string, m: Mapping): (r: string)
    ensures r != sel ==> IsStdChain(x) && sel in m && r == m[sel]
    ensures IsStdChain(x) && sel in m ==> r == m[sel]
  {
    if IsStdChain(x) && sel in m then m[sel] else sel
  }

  /** The effect of ast.Inspect(file, Transform) on the tree: every selector
      node, visited once in pre-order, has its name looked up once. */
  function Rename(n: Node, m: Mapping): Node
  {
    match n
    case Nil => n
    case File(pkg, decls) => File(pkg, RenameAll(decls, m))
    case FuncDecl(name, sig, body) => FuncDecl(name, RenameAll(sig, m), Rename(body, m))
    case GenDecl(tok, specs) => GenDecl(tok, RenameAll(specs, m))
    case ImportSpec(_) => n
    case OtherSpec(cs) => OtherSpec(RenameAll(cs, m))
    case BlockStmt(ss) => BlockStmt(RenameAll(ss, m))
    case ExprStmt(x) => ExprStmt(Rename(x, m))
    case Ident(_) => n
    case SelectorExpr(x, sel) => SelectorExpr(Rename(x, m), NewSel(x, sel, m))
    case CallExpr(fun, args) => CallExpr(Rename(fun, m), RenameAll(args, m))
    case Other(cs) => Other(RenameAll(cs, m))
  }

  function RenameAll(ns: seq<Node>, m: Mapping): (r: seq<Node>)
    ensures |r| == |ns|
  {
    seq(|ns|, i requires 0 <= i < |ns| => Rename(ns[i], m))
  }

  /** The tree with every selector name blanked: what Rename must not change. */
  function Erase(n: Node): Node
  {
    match n
    case Nil => n
    case File(pkg, decls) => File(pkg, EraseAll(decls))
    case FuncDecl(name, sig, body) => FuncDecl(name, EraseAll(sig), Erase(body))
    case GenDecl(tok, specs) => GenDecl(tok, EraseAll(specs))
    case ImportSpec(_) => n
    case OtherSpec(cs) => OtherSpec(EraseAll(cs))
    case BlockStmt(ss) => BlockStmt(EraseAll(ss))
    case ExprStmt(x) => ExprStmt(Erase(x))
    case Ident(_) => n
    case SelectorExpr(x, _) => SelectorExpr(Erase(x), "")
    case CallExpr(fun, args) => CallExpr(Erase(fun), EraseAll(args))
    case Other(cs) => Other(EraseAll(cs))
  }

  function EraseAll(ns: seq<Node>): (r: seq<Node>)
    ensures |r| == |ns|
  {
    seq(|ns|, i requires 0 <= i < |ns| => Erase(ns[i]))
  }

  // ---------------------------------------------------------------------------
  // isStdChain

  /** An identifier is std-rooted iff it is `std`; a node that is neither an
      identifier, a selector nor a call never is. */
  lemma IsStdChainLeaves(e: Node)
    ensures e.Ident? ==> (IsStdChain(e) <==> e.name == "std")
    ensures !e.Ident? && !e.SelectorExpr? && !e.CallExpr? ==> !IsStdChain(e)
    ensures e.SelectorExpr? ==> IsStdChain(e) == IsStdChain(e.x)
    ensures e.CallExpr? ==> IsStdChain(e) == IsStdChain(e.fun)
  {
  }

  /** isStdChain agrees with the path-based reading, in both directions. */
  lemma {:induction false} IsStdChainIffRooted(e: Node)
    ensures IsStdChain(e) <==> RootedAtStd(e)
  {
    if IsStdChain(e) {
      var path := StdPath(e);
      assert Follow(e, path) == Some(Ident(StdName));
    } else if RootedAtStd(e) {
      var path :| Follow(e, path) == Some(Ident(StdName));
      FollowToStd(e, path);
      assert false;
    }
  }

  /** The path isStdChain takes through a std-rooted chain. */
  function StdPath(e: Node): (path: seq<Step>)
    requires IsStdChain(e)
    ensures Follow(e, path) == Some(Ident(StdName))
  {
    match e
    case Ident(_) => []
    case SelectorExpr(x, _) => [IntoX] + StdPath(x)
    case CallExpr(fun, _) => [IntoFun] + StdPath(fun)
  }

  lemma {:induction false} FollowToStd(e: Node, path: seq<Step>)
    requires Follow(e, path) == Some(Ident(StdName))
    ensures IsStdChain(e)
    decreases |path|
  {
    if path != [] {
      match (e, path[0])
      case (SelectorExpr(x, _), IntoX) => FollowToStd(x, path[1..]);
      case (CallExpr(fun, _), IntoFun) => FollowToStd(fun, path[1..]);
    }
  }

  /** `foo(std).Bar` is not std-rooted: call arguments are never followed. */
  lemma ArgumentsNotFollowed(bar: string)
    ensures !IsStdChain(SelectorExpr(CallExpr(Ident("foo"), [Ident("std")]), bar))
  {
  }

  // ---------------------------------------------------------------------------
  // Rename

  /** Renaming only ever changes selector names, so it never changes whether a
      chain is std-rooted: the in-place pre-order walk decides every selector
      as it would have on the original tree. */
  lemma {:induction false} RenameKeepsStdChain(e: Node, m: Mapping)
    ensures IsStdChain(Rename(e, m)) == IsStdChain(e)
  {
    match e
    case SelectorExpr(x, _) => RenameKeepsStdChain(x, m);
    case CallExpr(fun, _) => RenameKeepsStdChain(fun, m);
    case _ =>
  }

  /** Rename changes nothing but selector names. */
  lemma {:induction false} RenameOnlyTouchesSels(n: Node, m: Mapping)
    ensures Erase(Rename(n, m)) == Erase(n)
  {
    match n
    case Nil =>
    case File(pkg, decls) => RenameAllOnlyTouchesSels(decls, m);
    case FuncDecl(name, sig, body) => RenameAllOnlyTouchesSels(sig, m); RenameOnlyTouchesSels(body, m);
    case GenDecl(tok, specs) => RenameAllOnlyTouchesSels(specs, m);
    case ImportSpec(_) =>
    case OtherSpec(cs) => RenameAllOnlyTouchesSels(cs, m);
    case BlockStmt(ss) => RenameAllOnlyTouchesSels(ss, m);
    case ExprStmt(x) => RenameOnlyTouchesSels(x, m);
    case Ident(_) =>
    case SelectorExpr(x, _) => RenameOnlyTouchesSels(x, m);
    case CallExpr(fun, args) => RenameOnlyTouchesSels(fun, m); RenameAllOnlyTouchesSels(args, m);
    case Other(cs) => RenameAllOnlyTouchesSels(cs, m);
  }

  lemma {:induction false} RenameAllOnlyTouchesSels(ns: seq<Node>, m: Mapping)
    ensures EraseAll(RenameAll(ns, m)) == EraseAll(ns)
  {
    forall i | 0 <= i < |ns| ensures EraseAll(RenameAll(ns, m))[i] == EraseAll(ns)[i] {
      RenameOnlyTouchesSels(ns[i], m);
    }
  }

  /** No mapped name is itself a key: renaming cannot chain. */
  ghost predicate NoChaining(m: Mapping)
  {
    forall k :: k in m ==> m[k] !in m
  }

  /** A second walk over the output changes nothing when no mapped name is
      itself a key. */
  lemma {:induction false} RenameIdempotent(n: Node, m: Mapping)
    requires NoChaining(m)
    ensures Rename(Rename(n, m), m) == Rename(n, m)
  {
    match n
    case Nil =>
    case File(pkg, decls) => RenameAllIdempotent(decls, m);
    case FuncDecl(name, sig, body) => RenameAllIdempotent(sig, m); RenameIdempotent(body, m);
    case GenDecl(tok, specs) => RenameAllIdempotent(specs, m);
    case ImportSpec(_) =>
    case OtherSpec(cs) => RenameAllIdempotent(cs, m);
    case BlockStmt(ss) => RenameAllIdempotent(ss, m);
    case ExprStmt(x) => RenameIdempotent(x, m);
    case Ident(_) =>
    case SelectorExpr(x, sel) =>
      RenameIdempotent(x, m);
      RenameKeepsStdChain(x, m);
    case CallExpr(fun, args) => RenameIdempotent(fun, m); RenameAllIdempotent(args, m);
    case Other(cs) => RenameAllIdempotent(cs, m);
  }

  lemma {:induction false} RenameAllIdempotent(ns: seq<Node>, m: Mapping)
    requires NoChaining(m)
    ensures RenameAll(RenameAll(ns, m), m) == RenameAll(ns, m)
  {
    forall i | 0 <= i < |ns| ensures RenameAll(RenameAll(ns, m), m)[i] == RenameAll(ns, m)[i] {
      RenameIdempotent(ns[i], m);
    }
  }

  /** With a chaining mapping the walk still looks each name up once:
      std.A becomes std.B, not std.C. */
  lemma SingleLookup()
    ensures Rename(SelectorExpr(Ident("std"), "A"), map["A" := "B", "B" := "C"])
         == SelectorExpr(Ident("std"), "B")
  {
  }

  /** A selector whose receiver is not std-rooted keeps its name, whatever the
      mapping says: custom.Addr() and Addr() stay as they are. */
  lemma NonStdSelectorKept(x: Node, sel: string, m: Mapping)
    requires !IsStdChain(x)
    ensures Rename(SelectorExpr(x, sel), m).sel == sel
  {
  }

  /** An empty mapping changes nothing. */
  lemma {:induction false} RenameEmptyMapping(n: Node)
    ensures Rename(n, map[]) == n
  {
    match n
    case Nil =>
    case File(pkg, decls) => RenameAllEmptyMapping(decls);
    case FuncDecl(name, sig, body) => RenameAllEmptyMapping(sig); RenameEmptyMapping(body);
    case GenDecl(tok, specs) => RenameAllEmptyMapping(specs);
    case ImportSpec(_) =>
    case OtherSpec(cs) => RenameAllEmptyMapping(cs);
    case BlockStmt(ss) => RenameAllEmptyMapping(ss);
    case ExprStmt(x) => RenameEmptyMapping(x);
    case Ident(_) =>
    case SelectorExpr(x, sel) => RenameEmptyMapping(x);
    case CallExpr(fun, args) => RenameEmptyMapping(fun); RenameAllEmptyMapping(args);
    case Other(cs) => RenameAllEmptyMapping(cs);
  }

  lemma {:induction false} RenameAllEmptyMapping(ns: seq<Node>)
    ensures RenameAll(ns, map[]) == ns
  {
    forall i | 0 <= i < |ns| ensures RenameAll(ns, map[])[i] == ns[i] {
      RenameEmptyMapping(ns[i]);
    }
  }

  // ---------------------------------------------------------------------------
  // ShouldProcess

  const GnoExt: string := ".gno"

  function HasSuffix(s: string, suffix: string): bool
  {
    |suffix| <= |s| && s[|s| - |suffix|..] == suffix
  }

  /** filepath.Ext with '/' as the path separator: the suffix from the last
      '.' of the final path element, or "" when that element has no '.'. */
  function Ext(path: string): (e: string)
    ensures e == "" || (e[0] == '.' && HasSuffix(path, e))
    ensures forall i :: 0 <= i < |e| ==> e[i] != '/'
    ensures forall i :: 1 <= i < |e| ==> e[i] != '.'
    ensures e == "" <==>
      forall j :: 0 <= j < |path| && path[j] == '.' ==> exists k :: j < k < |path| && path[k] == '/'
  {
    ExtFrom(path, |path|)
  }

  /** The scan of Ext from index i - 1 down: nothing after index i - 1 is a
      '.' or a separator. */
  function ExtFrom(path: string, i: nat): (e: string)
    requires i <= |path|
    requires forall j :: i <= j < |path| ==> path[j] != '.' && path[j] != '/'
    ensures e == "" || (e[0] == '.' && HasSuffix(path, e))
    ensures forall j :: 0 <= j < |e| ==> e[j] != '/'
    ensures forall j :: 1 <= j < |e| ==> e[j] != '.'
    ensures e == "" <==>
      forall j :: 0 <= j < i && path[j] == '.' ==> exists k :: j < k < |path| && path[k] == '/'
    decreases i
  {
    if i == 0 then ""
    else if path[i - 1] == '/' then ""
    else if path[i - 1] == '.' then path[i - 1..]
    else ExtFrom(path, i - 1)
  }

  /** GnoFileProcessor.ShouldProcess. */
  function ShouldProcess(path: string): bool
  {
    HasSuffix(Ext(path), GnoExt)
  }

  /** Ext keeps exactly one '.', at its start, so the suffix test of
      ShouldProcess is an equality: the extension is exactly ".gno". */
  lemma ShouldProcessIffExtIsGno(path: string)
    ensures ShouldProcess(path) <==> Ext(path) == GnoExt
  {
    var e := Ext(path);
    if ShouldProcess(path) {
      assert e[|e| - 4] == '.';
    }
  }

  /** ShouldProcess(p) holds exactly for the paths that end in ".gno". */
  lemma ShouldProcessIffGnoSuffix(path: string)
    ensures ShouldProcess(path) <==> HasSuffix(path, GnoExt)
  {
    ShouldProcessIffExtIsGno(path);
    if HasSuffix(path, GnoExt) {
      var n := |path|;
      assert path[n - 4..] == GnoExt;
      assert path[n - 1] == 'o' && path[n - 2] == 'n' && path[n - 3] == 'g' && path[n - 4] == '.';
      assert ExtFrom(path, n - 3) == path[n - 4..];
      assert ExtFrom(path, n - 2) == ExtFrom(path, n - 3);
      assert ExtFrom(path, n - 1) == ExtFrom(path, n - 2);
      assert Ext(path) == ExtFrom(path, n - 1);
    }
  }

  /** The paths the tests in internal/src_handler_test.go list, as the code
      decides them. The tests expect "test.gnoA" and "test.gnoXXXXXX" to be
      accepted too; the code rejects them, because ".gnoA" does not end in
      ".gno". */
  lemma ShouldProcessExamples()
    ensures ShouldProcess("test.gno")
    ensures ShouldProcess("/path/to/test.gno")
    ensures !ShouldProcess("test.go")
    ensures !ShouldProcess("testfile")
    ensures !ShouldProcess("test.gnoA")
    ensures !ShouldProcess("test.gnoXXXXXX")
    ensures !ShouldProcess("/path/to/test.gnoA")
  {
    ShouldProcessIffGnoSuffix("test.gno");
    ShouldProcessIffGnoSuffix("/path/to/test.gno");
    ShouldProcessIffGnoSuffix("test.go");
    ShouldProcessIffGnoSuffix("testfile");
    ShouldProcessIffGnoSuffix("test.gnoA");
    ShouldProcessIffGnoSuffix("test.gnoXXXXXX");
    ShouldProcessIffGnoSuffix("/path/to/test.gnoA");
  }
}
