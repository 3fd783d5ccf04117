/** The trees of the end-to-end tests in internal/internal_test.go, and what
    the model says about them. */
module Scenarios {
  import opened Ast
  import opened SrcHandler
  import opened AstUtils
  import opened Transformer

  /** `std.sel` */
  function Std(sel: string): Node
  {
    SelectorExpr(Ident(StdName), sel)
  }

  /** A statement `f()`. */
  function CallStmt(f: Node): Node
  {
    ExprStmt(CallExpr(f, []))
  }

  /** package main; import "<pkg>"; func main() { stmts } */
  function MainFile(pkg: string, stmts: seq<Node>): Node
  {
    File("main", [GenDecl(Import, [ImportSpec("\"" + pkg + "\"")]),
                  FuncDecl("main", [Other([])], BlockStmt(stmts))])
  }

  /** The input of TestProcessDir. */
  function SampleIn(): Node
  {
    MainFile("std", [
      CallStmt(Std("GetCallerAt")),
      CallStmt(Std("SomeOtherFunction")),
      CallStmt(SelectorExpr(CallExpr(Std("PrevRealm"), []), "Addr")),
      CallStmt(Ident("Addr"))])
  }

  /** The output TestProcessDir expects. */
  function SampleOut(): Node
  {
    MainFile("std", [
      CallStmt(Std("CallerAt")),
      CallStmt(Std("SomeOtherFunction")),
      CallStmt(SelectorExpr(CallExpr(Std("PreviousRealm"), []), "Address")),
      CallStmt(Ident("Addr"))])
  }

  /** The entries of the tests' mapping file that the samples use. */
  ghost predicate TestMapping(m: Mapping)
  {
    && "GetCallerAt" in m && m["GetCallerAt"] == "CallerAt"
    && "Addr" in m && m["Addr"] == "Address"
    && "PrevRealm" in m && m["PrevRealm"] == "PreviousRealm"
    && "SomeOtherFunction" !in m
  }

  /** A selector on `std` is renamed iff the mapping has its name. */
  lemma RenameStd(sel: string, m: Mapping)
    ensures Rename(Std(sel), m) == Std(if sel in m then m[sel] else sel)
  {
    assert Rename(Ident(StdName), m) == Ident(StdName);
  }

  lemma RenameCallStmt(f: Node, m: Mapping)
    ensures Rename(CallStmt(f), m) == CallStmt(Rename(f, m))
  {
    assert RenameAll([], m) == [];
  }

  /** Renaming a file of this shape renames the statements of main only. */
  lemma RenameMainFile(pkg: string, stmts: seq<Node>, m: Mapping)
    ensures Rename(MainFile(pkg, stmts), m) == MainFile(pkg, RenameAll(stmts, m))
  {
    var imp := GenDecl(Import, [ImportSpec("\"" + pkg + "\"")]);
    var fn := FuncDecl("main", [Other([])], BlockStmt(stmts));
    assert RenameAll([Other([])], m) == [Other([])];
    assert Rename(imp, m) == imp by {
      assert RenameAll(imp.specs, m) == imp.specs;
    }
    assert Rename(fn, m) == FuncDecl("main", [Other([])], BlockStmt(RenameAll(stmts, m)));
    assert RenameAll([imp, fn], m) == [Rename(imp, m), Rename(fn, m)];
  }

  /** TestProcessDir: std.GetCallerAt() and both names of std.PrevRealm().Addr()
      are renamed; the unmapped std.SomeOtherFunction() and the unqualified
      Addr() are kept. */
  lemma ProcessDirSample(m: Mapping)
    requires TestMapping(m)
    ensures Rename(SampleIn(), m) == SampleOut()
    ensures CompareAST(Rename(SampleIn(), m), SampleOut()) == Ok
  {
    var stmts := SampleIn().decls[1].body.stmts;
    RenameMainFile("std", stmts, m);
    RenameStd("GetCallerAt", m);
    RenameCallStmt(Std("GetCallerAt"), m);
    RenameStd("SomeOtherFunction", m);
    RenameCallStmt(Std("SomeOtherFunction"), m);
    RenameStd("PrevRealm", m);
    assert RenameAll([], m) == [];
    assert IsStdChain(CallExpr(Std("PrevRealm"), []));
    RenameCallStmt(SelectorExpr(CallExpr(Std("PrevRealm"), []), "Addr"), m);
    RenameCallStmt(Ident("Addr"), m);
    assert RenameAll(stmts, m) == SampleOut().decls[1].body.stmts;
    CompareReflexive(SampleOut());
  }

  /** The comparison TestProcessDir makes cannot see a missing rename: the
      untransformed input matches the expected output too, because function
      bodies are never inspected. */
  lemma SampleCompareIgnoresBodies()
    ensures SampleIn() != SampleOut()
    ensures CompareAST(SampleIn(), SampleOut()) == Ok
  {
    assert SampleIn().decls[1].body.stmts[0] != SampleOut().decls[1].body.stmts[0];
    assert CompareDecl(SampleIn().decls[0], SampleOut().decls[0]) == Ok;
    assert CompareDecl(SampleIn().decls[1], SampleOut().decls[1]) == Ok;
  }

  /** TestProcessDir_Nested: std.Addr() becomes std.Address(). */
  lemma NestedSample(m: Mapping)
    requires TestMapping(m)
    ensures Rename(MainFile("std", [CallStmt(Std("Addr"))]), m) == MainFile("std", [CallStmt(Std("Address"))])
  {
    RenameMainFile("std", [CallStmt(Std("Addr"))], m);
    RenameStd("Addr", m);
    RenameCallStmt(Std("Addr"), m);
    assert RenameAll([CallStmt(Std("Addr"))], m) == [CallStmt(Std("Address"))];
  }

  /** TestProcessDir_NonStdCalls: custom.Addr() is kept whatever the mapping. */
  lemma NonStdCallsSample(m: Mapping)
    ensures Rename(MainFile("custom", [CallStmt(SelectorExpr(Ident("custom"), "Addr"))]), m)
         == MainFile("custom", [CallStmt(SelectorExpr(Ident("custom"), "Addr"))])
  {
    var s := CallStmt(SelectorExpr(Ident("custom"), "Addr"));
    RenameMainFile("custom", [s], m);
    RenameCallStmt(SelectorExpr(Ident("custom"), "Addr"), m);
    assert !IsStdChain(Ident("custom"));
    assert RenameAll([s], m) == [s];
  }

  /** std.PrevRealm().Addr() */
  function Chain(): Node
  {
    CallExpr(SelectorExpr(CallExpr(Std("PrevRealm"), []), "Addr"), [])
  }

  /** Chain() in pre-order, one cell per node. */
  function ChainCells(): seq<Cell>
  {
    [ Cell(CallExprKind, "", Import, [1], 5),
      Cell(SelectorExprKind, "Addr", Import, [2], 5),
      Cell(CallExprKind, "", Import, [3], 5),
      Cell(SelectorExprKind, "PrevRealm", Import, [4], 5),
      Cell(IdentKind, StdName, Import, [], 5) ]
  }

  lemma ChainCellsLaidOut()
    ensures Layout(ChainCells())
  {
    var cs := ChainCells();
    assert LaidOut(cs, 0) && LaidOut(cs, 1) && LaidOut(cs, 2) && LaidOut(cs, 3) && LaidOut(cs, 4);
  }

  /** The arena holds Chain(). */
  lemma ChainCellsHoldChain()
    ensures Layout(ChainCells()) && TreeAt(ChainCells(), 0) == Chain()
  {
    ChainCellsLaidOut();
    var cs := ChainCells();
    assert TreeAt(cs, 4) == Ident(StdName);
    assert TreeAt(cs, 3) == Std("PrevRealm");
    assert Forest(cs, [], 2) == [];
    assert TreeAt(cs, 2) == CallExpr(Std("PrevRealm"), []);
    assert TreeAt(cs, 1) == SelectorExpr(CallExpr(Std("PrevRealm"), []), "Addr");
    assert Forest(cs, [], 0) == [];
  }

  lemma RenameChain(m: Mapping)
    requires TestMapping(m)
    ensures Rename(Chain(), m) == CallExpr(SelectorExpr(CallExpr(Std("PreviousRealm"), []), "Address"), [])
  {
    var inner := CallExpr(Std("PrevRealm"), []);
    RenameStd("PrevRealm", m);
    assert RenameAll([], m) == [];
    assert Rename(inner, m) == CallExpr(Std("PreviousRealm"), []);
    assert IsStdChain(inner);
    assert Rename(SelectorExpr(inner, "Addr"), m) == SelectorExpr(CallExpr(Std("PreviousRealm"), []), "Address");
  }

  /** std.PrevRealm().Addr() laid out in an arena and walked in place: both
      selector names are looked up. */
  method RenameChainInPlace(m: Mapping) returns (t: Node)
    requires TestMapping(m)
    ensures t == CallExpr(SelectorExpr(CallExpr(Std("PreviousRealm"), []), "Address"), [])
  {
    var cs := ChainCells();
    var nodes := new Cell[5](i requires 0 <= i < 5 => cs[i]);
    assert nodes[..] == cs;
    ChainCellsHoldChain();
    InspectFile(nodes, m);
    RenameChain(m);
    t := TreeAt(nodes[..], 0);
  }
}
