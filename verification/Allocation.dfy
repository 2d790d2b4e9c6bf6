/**
 Where the parser allocates the nodes of a tree (src/language/parser.c:280-562, 639-741): children in order, then
 the node itself, each at the next address.  Addresses are numbered by allocation.  A parsed tree is thus unshared
 and holds exactly the nodes allocated for it.
*/
module Allocation {
  import opened Syntax
  import opened Printer
  import opened NodeList

  /** The tree in memory, its first node allocated at k; a declaration's value comes before its name and type. */
  function Alloc(a: Ast, k: nat): Node
    decreases a
  {
    match a
    case Literal(_, _) => Node(k, [])
    case Identifier(_, _) => Node(k, [])
    case Unary(_, arg, _) => Node(k + NodeCount(arg), [Alloc(arg, k)])
    case Binary(_, left, right, _) => Node(k + NodeCount(left) + NodeCount(right), [Alloc(left, k), Alloc(right, k + NodeCount(left))])
    case Call(_, args, _) => Node(k + NodeCountAll(args), AllocAll(args, k))
    case UnitNode => Node(k, [])
    case Block(stmts, _) => Node(k + NodeCountAll(stmts), AllocAll(stmts, k))
    case IfThen(cond, thn, _) => Node(k + NodeCount(cond) + NodeCount(thn), [Alloc(cond, k), Alloc(thn, k + NodeCount(cond))])
    case IfElse(cond, thn, els, _) =>
      var l := k + NodeCount(cond);
      var m := l + NodeCount(thn);
      Node(m + NodeCount(els), [Alloc(cond, k), Alloc(thn, l), Alloc(els, m)])
    case While(cond, body, _) => Node(k + NodeCount(cond) + NodeCount(body), [Alloc(cond, k), Alloc(body, k + NodeCount(cond))])
    case VarExpr(_, init, decl, _) =>
      var m := k + NodeCount(init);
      if decl == "" then Node(m + 1, [Node(m, []), Alloc(init, k)])
      else Node(m + 2, [Node(m, []), Alloc(init, k), Node(m + 1, [])])
  }

  function AllocAll(es: seq<Ast>, k: nat): (ns: seq<Node>)
    ensures |ns| == |es|
    decreases es
  {
    if es == [] then [] else
    var front := es[..|es| - 1];
    AllocAll(front, k) + [Alloc(es[|es| - 1], k + NodeCountAll(front))]
  }

  lemma {:induction false} AllocRepresents(a: Ast, k: nat)
    ensures Represents(Alloc(a, k), a)
    decreases a
  {
    match a
    case Unary(_, arg, _) => AllocRepresents(arg, k);
    case Binary(_, left, right, _) =>
      AllocRepresents(left, k);
      AllocRepresents(right, k + NodeCount(left));
    case Call(_, args, _) => AllocAllRepresents(args, k);
    case Block(stmts, _) => AllocAllRepresents(stmts, k);
    case IfThen(cond, thn, _) =>
      AllocRepresents(cond, k);
      AllocRepresents(thn, k + NodeCount(cond));
    case IfElse(cond, thn, els, _) =>
      AllocRepresents(cond, k);
      AllocRepresents(thn, k + NodeCount(cond));
      AllocRepresents(els, k + NodeCount(cond) + NodeCount(thn));
    case While(cond, body, _) =>
      AllocRepresents(cond, k);
      AllocRepresents(body, k + NodeCount(cond));
    case VarExpr(_, init, _, _) => AllocRepresents(init, k);
    case _ =>
  }

  lemma {:induction false} AllocAllRepresents(es: seq<Ast>, k: nat)
    ensures RepresentsAll(AllocAll(es, k), es)
    decreases es
  {
    if es != [] {
      var front := es[..|es| - 1];
      AllocAllRepresents(front, k);
      AllocRepresents(es[|es| - 1], k + NodeCountAll(front));
      assert AllocAll(es, k)[..|es| - 1] == AllocAll(front, k);
    }
  }

  /** The nodes listed are unshared, and their addresses are those from lo up to hi. */
  ghost predicate Exactly(ns: seq<Node>, lo: nat, hi: nat) {
    NoSharing(ns) && forall x :: x in Addrs(ns) <==> lo <= x < hi
  }

  lemma ExactlyNone(lo: nat)
    ensures Exactly([], lo, lo)
  {
  }

  lemma ExactlyOne(n: Node)
    ensures Exactly([n], n.addr, n.addr + 1)
  {
    assert [n][0].addr in Addrs([n]);
  }

  lemma AddrsJoin(xs: seq<Node>, ys: seq<Node>)
    ensures Addrs(xs + ys) == Addrs(xs) + Addrs(ys)
  {
    forall x | x in Addrs(xs) + Addrs(ys)
      ensures x in Addrs(xs + ys)
    {
      if x in Addrs(xs) {
        var i :| 0 <= i < |xs| && xs[i].addr == x;
        assert (xs + ys)[i].addr == x;
      } else {
        var i :| 0 <= i < |ys| && ys[i].addr == x;
        assert (xs + ys)[|xs| + i].addr == x;
      }
    }
  }

  lemma ExactlyJoin(xs: seq<Node>, ys: seq<Node>, lo: nat, mid: nat, hi: nat)
    requires (Exactly(xs, lo, mid) && Exactly(ys, mid, hi)) || (Exactly(ys, lo, mid) && Exactly(xs, mid, hi))
    requires lo <= mid <= hi
    ensures Exactly(xs + ys, lo, hi)
  {
    AddrsJoin(xs, ys);
    forall i, j | 0 <= i < j < |xs + ys|
      ensures (xs + ys)[i].addr != (xs + ys)[j].addr
    {
      if i < |xs| <= j {
        assert xs[i].addr in Addrs(xs) && ys[j - |xs|].addr in Addrs(ys);
      }
    }
  }

  /** Subtrees listed side by side, in whichever order their addresses come. */
  lemma ExactlySnoc(ns: seq<Node>, n: Node, lo: nat, mid: nat, hi: nat)
    requires lo <= mid <= hi
    requires || (Exactly(PreorderAll(ns), lo, mid) && Exactly(Preorder(n), mid, hi))
             || (Exactly(Preorder(n), lo, mid) && Exactly(PreorderAll(ns), mid, hi))
    ensures Exactly(PreorderAll(ns + [n]), lo, hi)
  {
    hide Exactly, Preorder;
    assert (ns + [n])[..|ns|] == ns;
    ExactlyJoin(Preorder(n), PreorderAll(ns), lo, mid, hi);
  }

  /** One subtree, or the beginning of more. */
  lemma ExactlyFirst(n: Node, lo: nat, hi: nat)
    requires lo <= hi && Exactly(Preorder(n), lo, hi)
    ensures Exactly(PreorderAll([n]), lo, hi)
  {
    hide Exactly;
    OneOnTop(n);
  }

  lemma ExactlySecond(m: Node, n: Node, lo: nat, mid: nat, hi: nat)
    requires lo <= mid <= hi
    requires || (Exactly(Preorder(m), lo, mid) && Exactly(Preorder(n), mid, hi))
             || (Exactly(Preorder(n), lo, mid) && Exactly(Preorder(m), mid, hi))
    ensures Exactly(PreorderAll([m, n]), lo, hi)
  {
    hide Exactly, Preorder, PreorderAll;
    if Exactly(Preorder(m), lo, mid) && Exactly(Preorder(n), mid, hi) {
      ExactlyFirst(m, lo, mid);
    } else {
      ExactlyFirst(m, mid, hi);
    }
    ExactlySnoc([m], n, lo, mid, hi);
    assert [m] + [n] == [m, n];
  }

  /** A node allocated after everything below it. */
  lemma Rooted(n: Node, lo: nat)
    requires lo <= n.addr && Exactly(PreorderAll(n.edges), lo, n.addr)
    ensures Exactly(Preorder(n), lo, n.addr + 1)
  {
    hide Exactly;
    ExactlyOne(n);
    ExactlyJoin([n], PreorderAll(n.edges), lo, n.addr, n.addr + 1);
  }

  lemma LeafExactly(k: nat)
    ensures Exactly(Preorder(Node(k, [])), k, k + 1)
  {
    hide Exactly;
    LeafOrder(Node(k, []));
    ExactlyOne(Node(k, []));
  }

  /** A parsed tree is unshared and holds exactly the nodes allocated for it. */
  lemma {:induction false} AllocExactly(a: Ast, k: nat)
    ensures Exactly(Preorder(Alloc(a, k)), k, k + NodeCount(a))
    decreases a, 1
  {
    hide Exactly, Preorder, PreorderAll, Alloc, NodeCount;
    match a
    case Literal(_, _) => LeafNode(a, k);
    case Identifier(_, _) => LeafNode(a, k);
    case Unary(_, arg, _) =>
      AllocExactly(arg, k);
      UnaryNode(a, k);
    case Binary(_, left, right, _) =>
      AllocExactly(left, k);
      AllocExactly(right, k + NodeCount(left));
      PairNode(a, left, right, k);
    case Call(_, args, _) =>
      AllocAllExactly(args, k);
      ListNode(a, args, k);
    case UnitNode => LeafNode(a, k);
    case Block(stmts, _) =>
      AllocAllExactly(stmts, k);
      ListNode(a, stmts, k);
    case IfThen(cond, thn, _) =>
      AllocExactly(cond, k);
      AllocExactly(thn, k + NodeCount(cond));
      PairNode(a, cond, thn, k);
    case IfElse(_, _, _, _) => IfExactly(a, k);
    case While(cond, body, _) =>
      AllocExactly(cond, k);
      AllocExactly(body, k + NodeCount(cond));
      PairNode(a, cond, body, k);
    case VarExpr(_, _, _, _) => VarExactly(a, k);
  }

  /** No declaration in the tree. */
  predicate NoDeclaration(a: Ast)
    decreases a
  {
    match a
    case Unary(_, arg, _) => NoDeclaration(arg)
    case Binary(_, left, right, _) => NoDeclaration(left) && NoDeclaration(right)
    case Call(_, args, _) => NoDeclarationIn(args)
    case Block(stmts, _) => NoDeclarationIn(stmts)
    case IfThen(cond, thn, _) => NoDeclaration(cond) && NoDeclaration(thn)
    case IfElse(cond, thn, els, _) => NoDeclaration(cond) && NoDeclaration(thn) && NoDeclaration(els)
    case While(cond, body, _) => NoDeclaration(cond) && NoDeclaration(body)
    case VarExpr(_, _, _, _) => false
    case _ => true
  }

  predicate NoDeclarationIn(es: seq<Ast>)
    decreases es
  {
    es == [] || (NoDeclaration(es[|es| - 1]) && NoDeclarationIn(es[..|es| - 1]))
  }

  /** The nodes at hi - 1, hi - 2, ... down to lo, in this order. */
  predicate Descends(ns: seq<Node>, lo: nat, hi: nat) {
    lo + |ns| == hi && forall i :: 0 <= i < |ns| ==> ns[i].addr == hi - 1 - i
  }

  lemma DescendsJoin(xs: seq<Node>, ys: seq<Node>, lo: nat, mid: nat, hi: nat)
    requires Descends(xs, mid, hi) && Descends(ys, lo, mid)
    ensures Descends(xs + ys, lo, hi)
  {
  }

  lemma DescendsRoot(n: Node, lo: nat)
    requires lo <= n.addr && Descends(PreorderAll(n.edges), lo, n.addr)
    ensures Descends(Preorder(n), lo, n.addr + 1)
  {
    hide PreorderAll;
    DescendsJoin([n], PreorderAll(n.edges), lo, n.addr, n.addr + 1);
  }

  lemma DescendsSnoc(ns: seq<Node>, n: Node, lo: nat, mid: nat, hi: nat)
    requires Descends(PreorderAll(ns), lo, mid) && Descends(Preorder(n), mid, hi)
    ensures Descends(PreorderAll(ns + [n]), lo, hi)
  {
    hide Preorder, Descends;
    assert (ns + [n])[..|ns + [n]| - 1] == ns;
    DescendsJoin(Preorder(n), PreorderAll(ns), lo, mid, hi);
  }

  lemma DescendsNone(lo: nat)
    ensures Descends(PreorderAll([]), lo, lo)
  {
  }

  /** In a tree without declarations, the listing goes from the node allocated last to the one allocated first. */
  lemma {:induction false} ListingDescends(a: Ast, k: nat)
    requires NoDeclaration(a)
    ensures Descends(Preorder(Alloc(a, k)), k, k + NodeCount(a))
    decreases a, 1
  {
    hide Descends, Preorder, PreorderAll;
    DescendsNone(k);
    match a
    case Unary(_, arg, _) =>
      ListingDescends(arg, k);
      DescendsSnoc([], Alloc(arg, k), k, k, k + NodeCount(arg));
      assert [] + [Alloc(arg, k)] == [Alloc(arg, k)];
      DescendsRoot(Alloc(a, k), k);
    case Binary(_, left, right, _) => PairDescends(a, left, right, k);
    case Call(_, args, _) =>
      AllDescend(args, k);
      DescendsRoot(Alloc(a, k), k);
    case Block(stmts, _) =>
      AllDescend(stmts, k);
      DescendsRoot(Alloc(a, k), k);
    case IfThen(cond, thn, _) => PairDescends(a, cond, thn, k);
    case IfElse(_, _, _, _) => IfDescends(a, k);
    case While(cond, body, _) => PairDescends(a, cond, body, k);
    case _ => DescendsRoot(Alloc(a, k), k);
  }

  lemma {:induction false} PairDescends(a: Ast, x: Ast, y: Ast, k: nat)
    requires || (a.Binary? && x == a.left && y == a.right) || (a.IfThen? && x == a.cond && y == a.thn)
             || (a.While? && x == a.cond && y == a.body)
    requires NoDeclaration(x) && NoDeclaration(y)
    ensures Descends(Preorder(Alloc(a, k)), k, k + NodeCount(a))
    decreases a, 0
  {
    hide Descends, Preorder, PreorderAll, NoDeclaration, Alloc, NodeCount;
    var l := k + NodeCount(x);
    ListingDescends(x, k);
    ListingDescends(y, l);
    TwoDescend(Alloc(x, k), Alloc(y, l), k, l, l + NodeCount(y));
    PairIs(a, x, y, k);
    DescendsRoot(Alloc(a, k), k);
  }

  lemma PairIs(a: Ast, x: Ast, y: Ast, k: nat)
    requires || (a.Binary? && x == a.left && y == a.right) || (a.IfThen? && x == a.cond && y == a.thn)
             || (a.While? && x == a.cond && y == a.body)
    ensures Alloc(a, k) == Node(k + NodeCount(x) + NodeCount(y), [Alloc(x, k), Alloc(y, k + NodeCount(x))])
    ensures NodeCount(a) == 1 + NodeCount(x) + NodeCount(y)
  {
  }

  lemma TwoDescend(m: Node, n: Node, lo: nat, mid: nat, hi: nat)
    requires Descends(Preorder(m), lo, mid) && Descends(Preorder(n), mid, hi)
    ensures Descends(PreorderAll([m, n]), lo, hi)
  {
    hide Descends, Preorder, PreorderAll;
    DescendsNone(lo);
    DescendsSnoc([], m, lo, lo, mid);
    assert [] + [m] == [m];
    DescendsSnoc([m], n, lo, mid, hi);
    assert [m] + [n] == [m, n];
  }

  lemma {:induction false} IfDescends(a: Ast, k: nat)
    requires a.IfElse? && NoDeclaration(a)
    ensures Descends(Preorder(Alloc(a, k)), k, k + NodeCount(a))
    decreases a, 0
  {
    hide Descends, Preorder, PreorderAll;
    var l := k + NodeCount(a.cond);
    var m := l + NodeCount(a.thn);
    var x, y, z := Alloc(a.cond, k), Alloc(a.thn, l), Alloc(a.els, m);
    ListingDescends(a.cond, k);
    ListingDescends(a.thn, l);
    ListingDescends(a.els, m);
    TwoDescend(x, y, k, l, m);
    DescendsSnoc([x, y], z, k, m, m + NodeCount(a.els));
    assert [x, y] + [z] == [x, y, z];
    DescendsRoot(Alloc(a, k), k);
  }

  lemma {:induction false} AllDescend(es: seq<Ast>, k: nat)
    requires NoDeclarationIn(es)
    ensures Descends(PreorderAll(AllocAll(es, k)), k, k + NodeCountAll(es))
    decreases es
  {
    hide Descends, Preorder, PreorderAll, NoDeclaration, Alloc, NodeCount;
    DescendsNone(k);
    if es != [] {
      var front, last := es[..|es| - 1], es[|es| - 1];
      var mid := k + NodeCountAll(front);
      AllDescend(front, k);
      ListingDescends(last, mid);
      DescendsSnoc(AllocAll(front, k), Alloc(last, mid), k, mid, mid + NodeCount(last));
    }
  }

  /** A declaration's name is allocated after everything below its value, and its type after that. */
  lemma ValueFirst(a: Ast, k: nat)
    requires a.VarExpr?
    ensures var n := Alloc(a, k);
            && n.edges[1] == Alloc(a.init, k) && n.addr == k + NodeCount(a) - 1
            && (forall x :: x in Addrs(Preorder(n.edges[1])) ==> x < n.edges[0].addr)
            && if a.decl == "" then n.edges[0].addr == n.addr - 1
               else n.edges[2].addr == n.addr - 1 && n.edges[0].addr == n.addr - 2
  {
    hide Preorder, NoSharing, Addrs;
    AllocExactly(a.init, k);
  }

  lemma LeafNode(a: Ast, k: nat)
    requires a.Literal? || a.Identifier? || a.UnitNode?
    ensures Exactly(Preorder(Alloc(a, k)), k, k + NodeCount(a))
  {
    hide Exactly, Preorder;
    LeafExactly(k);
  }

  lemma UnaryNode(a: Ast, k: nat)
    requires a.Unary? && Exactly(Preorder(Alloc(a.arg, k)), k, k + NodeCount(a.arg))
    ensures Exactly(Preorder(Alloc(a, k)), k, k + NodeCount(a))
  {
    hide Exactly, Preorder, PreorderAll;
    ExactlyFirst(Alloc(a.arg, k), k, k + NodeCount(a.arg));
    Rooted(Alloc(a, k), k);
  }

  lemma PairNode(a: Ast, x: Ast, y: Ast, k: nat)
    requires || (a.Binary? && x == a.left && y == a.right) || (a.IfThen? && x == a.cond && y == a.thn)
             || (a.While? && x == a.cond && y == a.body)
    requires Exactly(Preorder(Alloc(x, k)), k, k + NodeCount(x))
    requires Exactly(Preorder(Alloc(y, k + NodeCount(x))), k + NodeCount(x), k + NodeCount(x) + NodeCount(y))
    ensures Exactly(Preorder(Alloc(a, k)), k, k + NodeCount(a))
  {
    hide Exactly, Preorder, PreorderAll;
    var l := k + NodeCount(x);
    ExactlySecond(Alloc(x, k), Alloc(y, l), k, l, l + NodeCount(y));
    Rooted(Alloc(a, k), k);
  }

  lemma ListNode(a: Ast, es: seq<Ast>, k: nat)
    requires (a.Call? && es == a.args) || (a.Block? && es == a.stmts)
    requires Exactly(PreorderAll(AllocAll(es, k)), k, k + NodeCountAll(es))
    ensures Exactly(Preorder(Alloc(a, k)), k, k + NodeCount(a))
  {
    hide Exactly, Preorder, PreorderAll;
    Rooted(Alloc(a, k), k);
  }

  lemma {:induction false} IfExactly(a: Ast, k: nat)
    requires a.IfElse?
    ensures Exactly(Preorder(Alloc(a, k)), k, k + NodeCount(a))
    decreases a, 0
  {
    hide Exactly, Preorder, PreorderAll;
    var l := k + NodeCount(a.cond);
    var m := l + NodeCount(a.thn);
    var x, y, z := Alloc(a.cond, k), Alloc(a.thn, l), Alloc(a.els, m);
    AllocExactly(a.cond, k);
    AllocExactly(a.thn, l);
    AllocExactly(a.els, m);
    ExactlySecond(x, y, k, l, m);
    ExactlySnoc([x, y], z, k, m, m + NodeCount(a.els));
    assert [x, y] + [z] == [x, y, z];
    Rooted(Alloc(a, k), k);
  }

  lemma {:induction false} VarExactly(a: Ast, k: nat)
    requires a.VarExpr?
    ensures Exactly(Preorder(Alloc(a, k)), k, k + NodeCount(a))
    decreases a, 0
  {
    hide Exactly, Preorder, PreorderAll;
    var m := k + NodeCount(a.init);
    var name, x, decl := Node(m, []), Alloc(a.init, k), Node(m + 1, []);
    AllocExactly(a.init, k);
    LeafExactly(m);
    LeafExactly(m + 1);
    ExactlySecond(name, x, k, m, m + 1);
    ExactlySnoc([name, x], decl, k, m + 1, m + 2);
    assert [name, x] + [decl] == [name, x, decl];
    Rooted(Alloc(a, k), k);
  }

  lemma {:induction false} AllocAllExactly(es: seq<Ast>, k: nat)
    ensures Exactly(PreorderAll(AllocAll(es, k)), k, k + NodeCountAll(es))
    decreases es
  {
    hide Exactly, Preorder;
    if es == [] {
      ExactlyNone(k);
    } else {
      var front, last := es[..|es| - 1], es[|es| - 1];
      var m := k + NodeCountAll(front);
      AllocAllExactly(front, k);
      AllocExactly(last, m);
      ExactlySnoc(AllocAll(front, k), Alloc(last, m), k, m, m + NodeCount(last));
    }
  }

  /** Calls of ten arguments, the last of which is again such a call: as deep a stack as a tree of this height can need. */
  function NestedCalls(h: nat): Ast {
    if h == 0 then Identifier("x", TError) else Call("f", seq(9, _ => Identifier("x", TError)) + [NestedCalls(h - 1)], TError)
  }

  lemma {:induction false} LeafArgs(es: seq<Ast>, k: nat)
    requires forall i :: 0 <= i < |es| ==> es[i].Identifier?
    ensures forall i :: 0 <= i < |es| ==> AllocAll(es, k)[i].edges == []
  {
    if es != [] {
      LeafArgs(es[..|es| - 1], k);
    }
  }

  lemma LoneLeaf(k: nat)
    ensures var n := Node(k, []); Narrow(n) && Height(n) == 0 && Peak(n) == 1
  {
  }

  /** The trees that meet the bound on the stack are parsed ones: wherever allocated, unshared and of every height. */
  lemma {:induction false} NestedCallsMeetBound(h: nat, k: nat)
    ensures var n := Alloc(NestedCalls(h), k);
            Narrow(n) && Height(n) == h && Peak(n) == 1 + 9 * h && NoSharing(Preorder(n))
  {
    hide NoSharing, Preorder, Narrow, Height, Peak, PeakAll, NarrowAll, HeightAll;
    var n := Alloc(NestedCalls(h), k);
    if h == 0 {
      LoneLeaf(k);
    }
    AllocExactly(NestedCalls(h), k);
    if h > 0 {
      var xs: seq<Ast> := seq(9, _ => Identifier("x", TError));
      var last := NestedCalls(h - 1);
      var es := NestedCalls(h).args;
      assert es[..|es| - 1] == xs && es[|es| - 1] == last;
      var leaves := AllocAll(xs, k);
      LeafArgs(xs, k);
      NestedCallsMeetBound(h - 1, k + NodeCountAll(xs));
      NineLeaves(n, leaves, Alloc(last, k + NodeCountAll(xs)), h - 1);
    }
  }

  /** Ten edges, of which only the last goes on down. */
  lemma NineLeaves(n: Node, leaves: seq<Node>, last: Node, h: nat)
    requires n.edges == leaves + [last] && |leaves| == 9 && forall i :: 0 <= i < 9 ==> leaves[i].edges == []
    requires Narrow(last) && Height(last) == h && Peak(last) == 1 + 9 * h
    ensures Narrow(n) && Height(n) == h + 1 && Peak(n) == 1 + 9 * (h + 1)
  {
    LeavesFlat(leaves);
    assert n.edges[..9] == leaves && n.edges[9] == last;
  }

  lemma LeafParseable()
    ensures Parseable(Identifier("x", TError))
  {
  }

  lemma {:induction false} LeafArgsParseable(es: seq<Ast>, last: Ast)
    requires forall i :: 0 <= i < |es| ==> es[i] == Identifier("x", TError)
    requires Parseable(last) && !last.UnitNode?
    ensures ParseableArgs(es + [last])
  {
    hide Parseable;
    LeafParseable();
    if es == [] {
      assert es + [last] == [last] && [last][1..] == [];
      assert ParseableArgs([]);
    } else {
      LeafArgsParseable(es[1..], last);
      assert (es + [last])[1..] == es[1..] + [last];
    }
  }

  lemma {:induction false} NestedCallsParseable(h: nat)
    ensures Parseable(NestedCalls(h)) && !NestedCalls(h).UnitNode?
  {
    if h > 0 {
      NestedCallsParseable(h - 1);
      LeafArgsParseable(seq(9, _ => Identifier("x", TError)), NestedCalls(h - 1));
    }
  }

  /** A tree and its place in memory. */
  datatype Parsed = Parsed(a: Ast, n: Node)

  datatype ParsedList = ParsedList(es: seq<Ast>, ns: seq<Node>)

  /** The nodes allocated from lo up to hi are those of the tree. */
  ghost predicate Built(p: Parsed, lo: nat, hi: nat) {
    p.n == Alloc(p.a, lo) && hi == lo + NodeCount(p.a)
  }

  ghost predicate BuiltAll(ps: ParsedList, lo: nat, hi: nat) {
    ps.ns == AllocAll(ps.es, lo) && hi == lo + NodeCountAll(ps.es)
  }

  lemma BuiltLeaf(a: Ast, k: nat)
    requires a.Literal? || a.Identifier? || a.UnitNode?
    ensures Built(Parsed(a, Node(k, [])), k, k + 1)
  {
  }

  lemma BuiltUnary(op: string, x: Parsed, lo: nat, hi: nat)
    requires Built(x, lo, hi)
    ensures Built(Parsed(Unary(op, x.a, TError), Node(hi, [x.n])), lo, hi + 1)
  {
  }

  lemma BuiltBinary(op: string, x: Parsed, y: Parsed, lo: nat, mid: nat, hi: nat)
    requires Built(x, lo, mid) && Built(y, mid, hi)
    ensures Built(Parsed(Binary(op, x.a, y.a, TError), Node(hi, [x.n, y.n])), lo, hi + 1)
  {
  }

  lemma BuiltCall(callee: string, xs: ParsedList, lo: nat, hi: nat)
    requires BuiltAll(xs, lo, hi)
    ensures Built(Parsed(Call(callee, xs.es, TError), Node(hi, xs.ns)), lo, hi + 1)
  {
  }

  lemma BuiltBlock(xs: ParsedList, lo: nat, hi: nat)
    requires BuiltAll(xs, lo, hi)
    ensures Built(Parsed(Block(xs.es, TError), Node(hi, xs.ns)), lo, hi + 1)
  {
  }

  lemma BuiltIfThen(x: Parsed, y: Parsed, lo: nat, mid: nat, hi: nat)
    requires Built(x, lo, mid) && Built(y, mid, hi)
    ensures Built(Parsed(IfThen(x.a, y.a, TError), Node(hi, [x.n, y.n])), lo, hi + 1)
  {
  }

  lemma BuiltIfElse(x: Parsed, y: Parsed, z: Parsed, lo: nat, l: nat, m: nat, hi: nat)
    requires Built(x, lo, l) && Built(y, l, m) && Built(z, m, hi)
    ensures Built(Parsed(IfElse(x.a, y.a, z.a, TError), Node(hi, [x.n, y.n, z.n])), lo, hi + 1)
  {
  }

  lemma BuiltWhile(x: Parsed, y: Parsed, lo: nat, mid: nat, hi: nat)
    requires Built(x, lo, mid) && Built(y, mid, hi)
    ensures Built(Parsed(While(x.a, y.a, TError), Node(hi, [x.n, y.n])), lo, hi + 1)
  {
  }

  lemma BuiltVar(name: string, x: Parsed, decl: string, lo: nat, hi: nat)
    requires Built(x, lo, hi)
    ensures decl == "" ==> Built(Parsed(VarExpr(name, x.a, "", TError), Node(hi + 1, [Node(hi, []), x.n])), lo, hi + 2)
    ensures decl != "" ==>
      Built(Parsed(VarExpr(name, x.a, decl, TError), Node(hi + 2, [Node(hi, []), x.n, Node(hi + 1, [])])), lo, hi + 3)
  {
  }

  lemma BuiltNone(lo: nat)
    ensures BuiltAll(ParsedList([], []), lo, lo)
  {
  }

  lemma BuiltMore(xs: ParsedList, x: Parsed, lo: nat, mid: nat, hi: nat)
    requires BuiltAll(xs, lo, mid) && Built(x, mid, hi)
    ensures BuiltAll(ParsedList(xs.es + [x.a], xs.ns + [x.n]), lo, hi)
  {
    assert (xs.es + [x.a])[..|xs.es|] == xs.es;
  }

  /** What was built is the tree, unshared, and nothing else. */
  lemma BuiltExactly(p: Parsed, lo: nat, hi: nat)
    requires Built(p, lo, hi)
    ensures Represents(p.n, p.a) && Exactly(Preorder(p.n), lo, hi) && |Preorder(p.n)| == hi - lo
  {
    hide Exactly, Preorder, Represents;
    AllocRepresents(p.a, lo);
    AllocExactly(p.a, lo);
    ListsAllocated(p.n, p.a);
  }
}
