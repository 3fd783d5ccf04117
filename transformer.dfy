/** The in-place half of internal/src_handler.go: StdFunctionTransformer.Transform
    overwriting Sel.Name while ast.Inspect walks the file in pre-order.

    The file's nodes live in an arena, an array of cells in pre-order: cell i
    and its subtree occupy the index interval [i, end), and the children of a
    cell tile [i + 1, end) from left to right. The only field the walk writes is
    the `text` of a selector cell, its Sel.Name. */
module Transformer {
  import opened Ast
  import opened SrcHandler

  /** One arena node. `text` is the package name of a File, the name of a
      FuncDecl, the path of an ImportSpec, the name of an Ident and the Sel.Name
      of a SelectorExpr; `tok` is the token of a GenDecl. `kids` are the
      children's indices in walk order (a selector's X, a call's Fun then its
      Args, a FuncDecl's signature nodes then its body); `end` is one past the
      last index of the cell's subtree. */
  datatype Cell = Cell(kind: Kind, text: string, tok: Token, kids: seq<nat>, end: nat)

  /** How many children a cell of each kind has. */
  predicate ArityOk(kind: Kind, n: nat)
  {
    match kind
    case NilKind => n == 0
    case IdentKind => n == 0
    case ImportSpecKind => n == 0
    case SelectorExprKind => n == 1
    case ExprStmtKind => n == 1
    case CallExprKind => n >= 1
    case FuncDeclKind => n >= 1
    case _ => true
  }

  /** Cell i and the subtrees of its children tile [i, end) in pre-order. */
  ghost predicate LaidOut(cells: seq<Cell>, i: nat)
    requires i < |cells|
  {
    var c := cells[i];
    && i < c.end <= |cells|
    && ArityOk(c.kind, |c.kids|)
    && (forall j :: 0 <= j < |c.kids| ==> i < c.kids[j] < |cells|)
    && (if |c.kids| == 0 then c.end == i + 1
        else
          && c.kids[0] == i + 1
          && (forall j :: 0 <= j < |c.kids| - 1 ==> c.kids[j + 1] == cells[c.kids[j]].end)
          && cells[c.kids[|c.kids| - 1]].end == c.end)
  }

  ghost predicate Layout(cells: seq<Cell>)
  {
    forall i :: 0 <= i < |cells| ==> LaidOut(cells, i)
  }

  /** Two cells that differ at most in the name of a selector. */
  predicate SameButSel(a: Cell, b: Cell)
  {
    a.kind == b.kind && a.tok == b.tok && a.kids == b.kids && a.end == b.end &&
    (a.kind != SelectorExprKind ==> a.text == b.text)
  }

  /** Two arenas that differ at most in selector names. */
  ghost predicate Agree(a: seq<Cell>, b: seq<Cell>)
  {
    |a| == |b| && forall k :: 0 <= k < |a| ==> SameButSel(a[k], b[k])
  }

  lemma LayoutAgree(a: seq<Cell>, b: seq<Cell>)
    requires Layout(a) && Agree(a, b)
    ensures Layout(b)
  {
    forall i | 0 <= i < |b| ensures LaidOut(b, i) {
      assert LaidOut(a, i);
      var c := a[i];
      if |c.kids| > 0 {
        forall j | 0 <= j < |c.kids| - 1 ensures c.kids[j + 1] == b[c.kids[j]].end {
          assert SameButSel(a[c.kids[j]], b[c.kids[j]]);
        }
        assert SameButSel(a[c.kids[|c.kids| - 1]], b[c.kids[|c.kids| - 1]]);
      }
    }
  }

  /** isStdChain on the arena. */
  function StdAt(cells: seq<Cell>, i: nat): bool
    requires Layout(cells) && i < |cells|
    decreases |cells| - i
  {
    assert LaidOut(cells, i);
    var c := cells[i];
    match c.kind
    case IdentKind => c.text == StdName
    case SelectorExprKind => StdAt(cells, c.kids[0])
    case CallExprKind => StdAt(cells, c.kids[0])
    case _ => false
  }

  /** isStdChain never reads a Sel.Name, so the names the walk has already
      rewritten cannot change its answer for a selector it has not reached:
      the in-place pre-order walk is order-independent. */
  lemma {:induction false} StdAtIgnoresSels(a: seq<Cell>, b: seq<Cell>, i: nat)
    requires Layout(a) && Layout(b) && Agree(a, b) && i < |a|
    ensures StdAt(a, i) == StdAt(b, i)
    decreases |a| - i
  {
    assert LaidOut(a, i) && SameButSel(a[i], b[i]);
    match a[i].kind
    case SelectorExprKind => StdAtIgnoresSels(a, b, a[i].kids[0]);
    case CallExprKind => StdAtIgnoresSels(a, b, a[i].kids[0]);
    case _ =>
  }

  /** Cell k after one Transform call on the arena `cells`. */
  function RenamedCell(cells: seq<Cell>, m: Mapping, k: nat): (r: Cell)
    requires Layout(cells) && k < |cells|
    ensures SameButSel(cells[k], r)
    ensures r != cells[k] <==>
      cells[k].kind == SelectorExprKind && StdAt(cells, cells[k].kids[0]) &&
      cells[k].text in m && m[cells[k].text] != cells[k].text
    ensures r != cells[k] ==> r == cells[k].(text := m[cells[k].text])
  {
    assert LaidOut(cells, k);
    var c := cells[k];
    if c.kind == SelectorExprKind && StdAt(cells, c.kids[0]) && c.text in m then
      c.(text := m[c.text])
    else c
  }

  /** The arena after the whole walk: every cell transformed once, each
      against the original arena. */
  function RenameCells(cells: seq<Cell>, m: Mapping): (r: seq<Cell>)
    requires Layout(cells)
    ensures Agree(cells, r) && Layout(r)
  {
    var r := seq(|cells|, k requires 0 <= k < |cells| => RenamedCell(cells, m, k));
    LayoutAgree(cells, r);
    r
  }

  /** StdFunctionTransformer.Transform on the node at index k: overwrite the
      Sel.Name of a selector whose receiver is std-rooted and whose name is a
      mapping key; leave every other cell, and every other field, alone.
      Always asks the walk to go on. */
  method Transform(nodes: array<Cell>, m: Mapping, k: nat) returns (cont: bool)
    requires Layout(nodes[..]) && k < nodes.Length
    modifies nodes
    ensures cont
    ensures nodes[..] == old(nodes[..])[k := RenamedCell(old(nodes[..]), m, k)]
    ensures Layout(nodes[..])
  {
    ghost var s0 := nodes[..];
    assert LaidOut(nodes[..], k);
    var c := nodes[k];
    if c.kind == SelectorExprKind {
      if StdAt(nodes[..], c.kids[0]) {
        if c.text in m {
          nodes[k] := c.(text := m[c.text]);
        }
      }
    }
    cont := true;
    assert Agree(s0, nodes[..]);
    LayoutAgree(s0, nodes[..]);
  }

  /** ast.Inspect(node i, Transform): visit the node, then, because Transform
      returned true, walk its children from left to right. Every cell of the
      subtree [i, end) is transformed once, against the arena as it was when
      the walk reached i; nothing outside the subtree changes. */
  method Inspect(nodes: array<Cell>, m: Mapping, i: nat)
    requires Layout(nodes[..]) && i < nodes.Length
    modifies nodes
    ensures forall k :: 0 <= k < nodes.Length ==>
      nodes[k] == if i <= k < old(nodes[i].end) then RenamedCell(old(nodes[..]), m, k) else old(nodes[k])
    ensures Layout(nodes[..])
    decreases nodes.Length - i
  {
    ghost var s0 := nodes[..];
    assert LaidOut(s0, i);
    var cont := Transform(nodes, m, i);
    assert cont;
    var kids := nodes[i].kids;
    var j := 0;
    ghost var pos := i + 1;
    while j < |kids|
      invariant 0 <= j <= |kids| && kids == s0[i].kids
      invariant pos == if j == 0 then i + 1 else s0[kids[j - 1]].end
      invariant forall k :: 0 <= k < nodes.Length ==>
        nodes[k] == if i <= k < pos then RenamedCell(s0, m, k) else s0[k]
    {
      ghost var sj := nodes[..];
      assert Agree(s0, sj) by {
        forall k | 0 <= k < |s0| ensures SameButSel(s0[k], sj[k]) {
          assert sj[k] == nodes[k];
        }
      }
      LayoutAgree(s0, sj);
      var c := kids[j];
      assert c == pos && i < c && sj[c] == s0[c] && LaidOut(s0, c);
      Inspect(nodes, m, c);
      forall k | 0 <= k < nodes.Length
        ensures nodes[k] == if i <= k < s0[c].end then RenamedCell(s0, m, k) else s0[k]
      {
        if c <= k < s0[c].end {
          assert nodes[k] == RenamedCell(sj, m, k);
          assert sj[k] == s0[k];
          assert LaidOut(s0, k);
          if s0[k].kind == SelectorExprKind {
            StdAtIgnoresSels(s0, sj, s0[k].kids[0]);
          }
          assert RenamedCell(sj, m, k) == RenamedCell(s0, m, k);
        } else {
          assert nodes[k] == sj[k];
        }
      }
      pos := s0[c].end;
      j := j + 1;
    }
    assert Agree(s0, nodes[..]) by {
      forall k | 0 <= k < |s0| ensures SameButSel(s0[k], nodes[..][k]) {
        assert nodes[..][k] == nodes[k];
      }
    }
    LayoutAgree(s0, nodes[..]);
  }

  /** The walk over a whole file: the arena holds one tree rooted at index 0. */
  method InspectFile(nodes: array<Cell>, m: Mapping)
    requires Layout(nodes[..]) && nodes.Length > 0 && nodes[0].end == nodes.Length
    modifies nodes
    ensures nodes[..] == RenameCells(old(nodes[..]), m)
    ensures TreeAt(nodes[..], 0) == Rename(TreeAt(old(nodes[..]), 0), m)
  {
    ghost var s0 := nodes[..];
    Inspect(nodes, m, 0);
    assert nodes[..] == RenameCells(s0, m);
    TreeAtRename(s0, m, 0);
  }

  // ---------------------------------------------------------------------------
  // Reading the arena as a tree

  /** The tree rooted at cell i. */
  function TreeAt(cells: seq<Cell>, i: nat): Node
    requires Layout(cells) && i < |cells|
    decreases |cells| - i, 1
  {
    assert LaidOut(cells, i);
    var c := cells[i];
    match c.kind
    case NilKind => Nil
    case FileKind => File(c.text, Forest(cells, c.kids, i))
    case FuncDeclKind =>
      FuncDecl(c.text, Forest(cells, c.kids[..|c.kids| - 1], i), TreeAt(cells, c.kids[|c.kids| - 1]))
    case GenDeclKind => GenDecl(c.tok, Forest(cells, c.kids, i))
    case ImportSpecKind => ImportSpec(c.text)
    case OtherSpecKind => OtherSpec(Forest(cells, c.kids, i))
    case BlockStmtKind => BlockStmt(Forest(cells, c.kids, i))
    case ExprStmtKind => ExprStmt(TreeAt(cells, c.kids[0]))
    case IdentKind => Ident(c.text)
    case SelectorExprKind => SelectorExpr(TreeAt(cells, c.kids[0]), c.text)
    case CallExprKind => CallExpr(TreeAt(cells, c.kids[0]), Forest(cells, c.kids[1..], i))
    case OtherKind => Other(Forest(cells, c.kids, i))
  }

  /** The trees rooted at the cells ks, all below cell `above`. */
  function Forest(cells: seq<Cell>, ks: seq<nat>, above: nat): (r: seq<Node>)
    requires Layout(cells) && forall j :: 0 <= j < |ks| ==> above < ks[j] < |cells|
    ensures |r| == |ks|
    decreases |cells| - above, 0
  {
    seq(|ks|, j requires 0 <= j < |ks| => TreeAt(cells, ks[j]))
  }

  /** The arena's isStdChain is isStdChain of the tree it holds. */
  lemma {:induction false} StdAtIsStdChain(cells: seq<Cell>, i: nat)
    requires Layout(cells) && i < |cells|
    ensures StdAt(cells, i) == IsStdChain(TreeAt(cells, i))
    decreases |cells| - i
  {
    assert LaidOut(cells, i);
    match cells[i].kind
    case SelectorExprKind => StdAtIsStdChain(cells, cells[i].kids[0]);
    case CallExprKind => StdAtIsStdChain(cells, cells[i].kids[0]);
    case _ =>
  }

  /** Transforming every cell of the arena once is renaming the tree it holds. */
  lemma {:induction false} TreeAtRename(cells: seq<Cell>, m: Mapping, i: nat)
    requires Layout(cells) && i < |cells|
    ensures TreeAt(RenameCells(cells, m), i) == Rename(TreeAt(cells, i), m)
    decreases |cells| - i, 2
  {
    assert LaidOut(cells, i);
    var c := cells[i];
    match c.kind
    case FuncDeclKind => FuncDeclRename(cells, m, i);
    case ExprStmtKind => ExprStmtRename(cells, m, i);
    case SelectorExprKind => SelectorRename(cells, m, i);
    case CallExprKind => CallRename(cells, m, i);
    case NilKind =>
    case IdentKind =>
    case ImportSpecKind =>
    case _ => ListRename(cells, m, i);
  }

  /** The kinds whose children are one list. */
  lemma {:induction false} ListRename(cells: seq<Cell>, m: Mapping, i: nat)
    requires Layout(cells) && i < |cells|
    requires cells[i].kind in {FileKind, GenDeclKind, OtherSpecKind, BlockStmtKind, OtherKind}
    ensures TreeAt(RenameCells(cells, m), i) == Rename(TreeAt(cells, i), m)
    decreases |cells| - i, 1
  {
    var r := RenameCells(cells, m);
    assert LaidOut(cells, i) && LaidOut(r, i);
    assert r[i] == cells[i];
    ForestRename(cells, m, cells[i].kids, i);
  }

  lemma {:induction false} FuncDeclRename(cells: seq<Cell>, m: Mapping, i: nat)
    requires Layout(cells) && i < |cells| && cells[i].kind == FuncDeclKind
    ensures TreeAt(RenameCells(cells, m), i) == Rename(TreeAt(cells, i), m)
    decreases |cells| - i, 1
  {
    var r := RenameCells(cells, m);
    assert LaidOut(cells, i) && LaidOut(r, i);
    var c := cells[i];
    assert r[i] == c;
    ForestRename(cells, m, c.kids[..|c.kids| - 1], i);
    TreeAtRename(cells, m, c.kids[|c.kids| - 1]);
  }

  lemma {:induction false} ExprStmtRename(cells: seq<Cell>, m: Mapping, i: nat)
    requires Layout(cells) && i < |cells| && cells[i].kind == ExprStmtKind
    ensures TreeAt(RenameCells(cells, m), i) == Rename(TreeAt(cells, i), m)
    decreases |cells| - i, 1
  {
    var r := RenameCells(cells, m);
    assert LaidOut(cells, i) && LaidOut(r, i);
    assert r[i] == cells[i];
    TreeAtRename(cells, m, cells[i].kids[0]);
  }

  /** The one kind whose own cell may change. */
  lemma {:induction false} SelectorRename(cells: seq<Cell>, m: Mapping, i: nat)
    requires Layout(cells) && i < |cells| && cells[i].kind == SelectorExprKind
    ensures TreeAt(RenameCells(cells, m), i) == Rename(TreeAt(cells, i), m)
    decreases |cells| - i, 1
  {
    var r := RenameCells(cells, m);
    assert LaidOut(cells, i) && LaidOut(r, i);
    var c := cells[i];
    assert r[i] == RenamedCell(cells, m, i);
    TreeAtRename(cells, m, c.kids[0]);
    StdAtIsStdChain(cells, c.kids[0]);
  }

  lemma {:induction false} CallRename(cells: seq<Cell>, m: Mapping, i: nat)
    requires Layout(cells) && i < |cells| && cells[i].kind == CallExprKind
    ensures TreeAt(RenameCells(cells, m), i) == Rename(TreeAt(cells, i), m)
    decreases |cells| - i, 1
  {
    var r := RenameCells(cells, m);
    assert LaidOut(cells, i) && LaidOut(r, i);
    var c := cells[i];
    assert r[i] == c;
    TreeAtRename(cells, m, c.kids[0]);
    ForestRename(cells, m, c.kids[1..], i);
  }

  lemma {:induction false} ForestRename(cells: seq<Cell>, m: Mapping, ks: seq<nat>, above: nat)
    requires Layout(cells) && forall j :: 0 <= j < |ks| ==> above < ks[j] < |cells|
    ensures Forest(RenameCells(cells, m), ks, above) == RenameAll(Forest(cells, ks, above), m)
    decreases |cells| - above, 0
  {
    var r := RenameCells(cells, m);
    forall j | 0 <= j < |ks|
      ensures Forest(r, ks, above)[j] == RenameAll(Forest(cells, ks, above), m)[j]
    {
      TreeAtRename(cells, m, ks[j]);
    }
  }
}
