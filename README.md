# renamatic core, modelled in Dafny

renamatic rewrites Gno source files. A `.gno` file that calls functions of the
`std` package gets those calls renamed by a fixed mapping of old names to new
names. A call `std.PrevRealm().Addr()` becomes `std.PreviousRealm().Address()`.
A selector whose receiver chain does not start at the identifier `std` is left alone.
The test suite checks the rewritten files with a loose structural comparison of syntax trees.

The model covers three parts.

- **The rename** (`internal/src_handler.go`). It has two levels:
  - `SrcHandler.Rename` is a pure function on a closed syntax-tree datatype (`Ast.Node`). It says what the rewrite does to a whole tree.
  - `Transformer` models how the program really does it. Go's `ast.Inspect` walks the tree in pre-order and calls `Transform` on each node. `Transform` overwrites the selector name in place. The model lays the tree out in pre-order in an `array<Cell>`, so each cell's subtree is an interval of the array. `Transformer.Inspect` is the recursive walk with a loop over each node's children, and `Transformer.Transform` is the per-node method that updates one cell. `Transformer.InspectFile` is proved to leave in the array exactly the tree that `Rename` computes.
- **The file filter** `ShouldProcess`. It uses Go's `filepath.Ext`, which is modelled as `SrcHandler.Ext`.
- **The comparator** (`internal/astutils.go`). `TypeComparator.Compare`, `compareNode`, `compareSlice`, `compareDecls`, `compareExprs` and `compareSpecs` are mutually recursive functions returning `Ok` or the first mismatch. The first mismatch records its kind, and the index or field where it happened. The comparator is proved equivalent to a declarative relation (`AstUtils.Matches`), so its consequences can be stated:
  - it is reflexive and transitive;
  - it is not symmetric;
  - it never looks into function bodies.

`Scenarios` replays the trees of the end-to-end tests in `internal/internal_test.go`.

The mapping is a `map<string, string>`. `isStdChain` compares against the constant `"std"`, and the file filter against `".gno"`.

The code and its unit test disagree on one point, and the model follows the code.
- `src_handler_test.go` expects `ShouldProcess` to accept `test.gnoA`, `test.gnoXXXXXX` and `/path/to/test.gnoA`.
- The code accepts exactly the paths whose extension is `.gno`, which rules those out.

`SrcHandler.ShouldProcessExamples` states both the accepted and the rejected cases of that table.

## Model

| member | source | states |
|---|---|---|
| SrcHandler.IsStdChainLeaves | internal/src_handler.go:120-131 | an identifier is std-rooted iff its name is `std`; a selector is std-rooted iff its receiver is; a call is std-rooted iff its callee is; every other kind never is |
| SrcHandler.IsStdChainIffRooted | internal/src_handler.go:119-131 | `isStdChain(e)` holds iff some path of receiver/callee steps from `e` ends at the identifier `std`, which is the documented meaning "rooted in the std identifier" |
| SrcHandler.ArgumentsNotFollowed | internal/src_handler.go:126-127 | call arguments are never followed: `foo(std).Bar` is not std-rooted |
| SrcHandler.NewSel | internal/src_handler.go:82-88 | a selector's name changes only when its receiver is std-rooted and the name is a mapping key, and then it becomes `mapping[name]` |
| SrcHandler.RenameKeepsStdChain | internal/src_handler.go:120-131 | renaming never changes whether an expression is std-rooted, because isStdChain reads no selector name |
| SrcHandler.RenameOnlyTouchesSels | internal/src_handler.go:81-90 | the rewrite changes nothing but selector names: with selector names blanked out, the tree before and after are equal |
| SrcHandler.RenameAllOnlyTouchesSels | internal/src_handler.go:81-90 | the same for a list of nodes |
| SrcHandler.RenameIdempotent | internal/src_handler.go:84-85 | each name is looked up once, so renaming twice equals renaming once when no mapped value is itself a key |
| SrcHandler.RenameAllIdempotent | internal/src_handler.go:84-85 | the same for a list of nodes |
| SrcHandler.SingleLookup | internal/src_handler.go:84-85 | with `A -> B` and `B -> C`, `std.A` becomes `std.B`, not `std.C` |
| SrcHandler.NonStdSelectorKept | internal/src_handler.go:83 | a selector whose receiver is not std-rooted keeps its name, whatever the mapping |
| SrcHandler.RenameEmptyMapping | internal/src_handler.go:84 | an empty mapping changes nothing |
| SrcHandler.RenameAllEmptyMapping | internal/src_handler.go:84 | the same for a list of nodes |
| SrcHandler.Ext | internal/src_handler.go:38 | the extension is empty exactly when the final path element has no `.`; otherwise it starts with that element's last `.` and runs to the end of the path, holding no other `.` and no `/` |
| SrcHandler.ShouldProcessIffExtIsGno | internal/src_handler.go:37-39 | a path is processed iff its extension is exactly `.gno` |
| SrcHandler.ShouldProcessIffGnoSuffix | internal/src_handler.go:37-39 | a path is processed iff it ends in `.gno` |
| SrcHandler.ShouldProcessExamples | internal/src_handler_test.go:11-45 | `test.gno` and `/path/to/test.gno` are accepted; `test.go` and `testfile` are rejected; `test.gnoA`, `test.gnoXXXXXX` and `/path/to/test.gnoA` are also rejected, although the test table expects them to be accepted |
| Transformer.RenamedCell | internal/src_handler.go:82-88 | a cell changes iff it is a selector, its receiver is std-rooted, its name is a key and the new name differs; it then changes only in its name, to `mapping[name]` |
| Transformer.RenameCells | internal/src_handler.go:81-90 | renaming every cell keeps the arena's tree layout and changes only selector names |
| Transformer.Transform | internal/src_handler.go:81-90 | always returns true, so the walk never prunes; it writes only cell k, and leaves it as RenamedCell specifies; the array keeps its tree layout |
| Transformer.Inspect | internal/src_handler.go:55 | walking the subtree at cell i in pre-order renames exactly the cells of that subtree, each as RenamedCell does on the original array, and leaves every other cell unchanged; the array keeps its tree layout |
| Transformer.InspectFile | internal/src_handler.go:55 | the in-place walk over a whole file leaves RenameCells of the original array, and the tree it holds is `Rename` of the original tree |
| Transformer.StdAtIgnoresSels | internal/src_handler.go:120-131 | the std-rooted test on the arena does not depend on selector names, so renaming earlier cells cannot change the outcome for later ones |
| Transformer.StdAtIsStdChain | internal/src_handler.go:120-131 | the arena's std-rooted test is isStdChain of the tree the arena holds |
| Transformer.TreeAtRename | internal/src_handler.go:55 | decoding the renamed arena gives `Rename` of the decoded original tree |
| Transformer.ForestRename | internal/src_handler.go:55 | the same for a list of sibling subtrees |
| AstUtils.TypeCompare | internal/astutils.go:26-36 | the result is Ok iff both nodes have the expected kind, and otherwise a type mismatch that carries both kinds |
| AstUtils.CompareIdent | internal/astutils.go:96-101 | identifiers match iff their names are equal |
| AstUtils.CompareSlice | internal/astutils.go:140-150 | lists of different lengths fail with a length mismatch; lists of equal length pass iff every positional pair passes; a failure reports the first failing index and its error |
| AstUtils.ScanFrom | internal/astutils.go:144-149 | the element loop from index i passes iff every pair from i on passes, and a failure names the first failing index |
| AstUtils.CompareSpec | internal/astutils.go:189-202 | an import spec matches iff the other is an import spec with the same path literal; a spec of any other kind matches anything |
| AstUtils.CompareNodeOkIffMatches | internal/astutils.go:74-136 | compareNode passes iff the declarative rules hold: nils pair only with nils; identifiers have equal names; selectors match in X and Sel; calls match in Fun and pairwise in args; files need equal package names and matching decls; any other kind matches any non-nil node |
| AstUtils.CompareExprsOkIffMatches | internal/astutils.go:181-185 | compareExprs passes iff the lists have equal length and match pairwise |
| AstUtils.CompareFileOkIffMatches | internal/astutils.go:55-63 | two files pass iff their package names are equal and their decls match pairwise |
| AstUtils.CompareDeclOkIffMatches | internal/astutils.go:153-178 | a FuncDecl matches only a FuncDecl with the same name whose body compares Ok; a GenDecl matches only a GenDecl with the same token and pairwise-matching specs; every other decl matches anything |
| AstUtils.MatchesReflexive | internal/astutils.go:74-136 | every tree satisfies the declarative relation with itself |
| AstUtils.DeclMatchesReflexive | internal/astutils.go:153-178 | every declaration matches itself |
| AstUtils.CompareReflexive | internal/internal_test.go:197 | comparing any tree with itself passes, so a whole-file compare of a file with itself passes |
| AstUtils.MatchesTransitive | internal/astutils.go:74-136 | the declarative relation is transitive |
| AstUtils.DeclMatchesTransitive | internal/astutils.go:153-178 | matching of declarations is transitive |
| AstUtils.CompareTransitive | internal/astutils.go:74-136 | if a passes against b and b against c, then a passes against c |
| AstUtils.NilRule | internal/astutils.go:75-80 | two nils match; a nil against a non-nil node fails, in either order |
| AstUtils.TypeMismatchRule | internal/astutils.go:82-131 | when `got` is a File, Ident, call or selector and `want` is a non-nil node of another kind, the result is the type mismatch of the two kinds and nothing else is compared |
| AstUtils.DefaultArmsAccept | internal/astutils.go:133-134 | a non-nil node of a kind without its own rule matches any non-nil node; the same holds for such decls (lines 174-175) and specs (lines 200-201) |
| AstUtils.NotSymmetric | internal/astutils.go:82-134 | the comparison dispatches on `got` alone, so it is not symmetric: an `Other` node passes against an identifier, but not the reverse |
| AstUtils.BodiesNotInspected | internal/astutils.go:164 | two functions with the same name pass whatever their bodies, because a body is a BlockStmt and that kind takes the default arm |
| AstUtils.DeclCountMismatch | internal/astutils.go:61 | files with different numbers of declarations fail with a length mismatch |
| Scenarios.ProcessDirSample | internal/internal_test.go:34-74 | with the test mapping, the TestProcessDir input is renamed to exactly the expected output, and the file compare passes |
| Scenarios.SampleCompareIgnoresBodies | internal/internal_test.go:72 | the untransformed TestProcessDir input also passes the file compare against the expected output, so that test cannot detect a missing rename |
| Scenarios.NestedSample | internal/internal_test.go:107-131 | `std.Addr()` becomes `std.Address()` |
| Scenarios.NonStdCallsSample | internal/internal_test.go:179-186 | `custom.Addr()` is unchanged under any mapping; the Go test itself (line 197) compares the input with itself rather than with the processed file, so it checks nothing about the rename, and this lemma states what it was meant to check |
| Scenarios.RenameChain | internal/internal_test.go:41 | `std.PrevRealm().Addr()` becomes `std.PreviousRealm().Address()` |
| Scenarios.RenameChainInPlace | internal/internal_test.go:41 | the in-place walk over the array holding `std.PrevRealm().Addr()` leaves `std.PreviousRealm().Address()` |

## Left out

- Parsing and printing Go source (`parser.ParseFile`, `format.Node`, `token.FileSet`). These are library calls. The model starts from a built tree.
- `ProcessFile`'s file I/O (`os.ReadFile`, `os.Stat`, `os.WriteFile` and permission bits). This is I/O.
- `ProcessDir`'s directory walk with `filepath.Walk`. This is a file-system traversal.
- internal/yaml_handler.go is not part of this model. It is a YAML decode by a library, so the mapping is a given `map<string, string>`.
- cmd/renamatic/main.go, internal/internal.go and internal/types.go are not part of this model. They hold flag parsing, wiring and interface declarations.
- The Go generics of `TypeComparator`/`CompareAble` and the `testing.T` plumbing of `compareAST` are not modelled. A match over the closed node datatype takes their place.
- Error texts are not modelled. Only the kind of mismatch, its index and the field it occurred in are kept.
- Node kinds that neither the walk nor the comparator distinguishes are one `Other` kind that keeps its children. An identifier in a field of its own (a function's name, a file's package name) is kept as a string, and a selector's `Sel` identifier is kept as its name. The walk visits those `*ast.Ident` nodes too, but `Transform` does nothing to an identifier.
- The calls `ast.Inspect` makes with a nil node after each subtree are not modelled. `Transform` does nothing on them.
- A `FuncDecl` without a body (a typed nil pointer in Go) is not represented. The walk skips it and the comparator's default arm accepts it.
- Ast.Node: the body of a `FuncDecl` is meant to be a `BlockStmt`, as Go's parser builds it, but the datatype does not enforce this. A `FuncDecl` whose body is `Nil` is not a bodyless function: against a function with a body it fails with a nil mismatch, where Go's comparator would pass.
- SrcHandler.Ext: takes `/` as the only path separator, as on Unix. On Windows Go also treats `\` as a separator.
- Scenarios: the mapping file the tests load (`mapping.yml`) is not part of this model. The scenarios assume only the entries they use.
