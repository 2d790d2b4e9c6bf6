/**
 Listing and freeing a tree (src/language/parser.c:743-792, 858-881) with an explicit stack (src/core/stack.c).
 Nodes are compared by address.  The stack holds 100 pointers; the code that should grow it overwrites every
 pending entry and then writes past the end (stack.c:23-38), so a deeper stack has no defined result: None.
*/
module NodeList {
  import opened Syntax
  import opened Ir
  import opened ParserSpec

  datatype Node = Node(addr: nat, edges: seq<Node>)

  const STACK_CAPACITY: nat := 100

  function Max(x: nat, y: nat): nat {
    if x < y then y else x
  }

  /** Root first, children from the last to the first. */
  function Preorder(n: Node): (r: seq<Node>)
    ensures |r| > 0
    decreases n
  {
    [n] + PreorderAll(n.edges)
  }

  function PreorderAll(ns: seq<Node>): seq<Node>
    decreases ns
  {
    if ns == [] then [] else Preorder(ns[|ns| - 1]) + PreorderAll(ns[..|ns| - 1])
  }

  /** How many entries the stack reaches while n and what is below it is listed. */
  function Peak(n: Node): (p: nat)
    ensures p >= 1
    decreases n
  {
    Max(1, PeakAll(n.edges))
  }

  /** The same for a stack of nodes: the one at i is listed with i others still waiting below it. */
  function PeakAll(ns: seq<Node>): (p: nat)
    ensures p >= |ns|
    decreases ns
  {
    if ns == [] then 0 else Max(|ns| - 1 + Peak(ns[|ns| - 1]), PeakAll(ns[..|ns| - 1]))
  }

  function Height(n: Node): nat
    decreases n
  {
    if n.edges == [] then 0 else 1 + HeightAll(n.edges)
  }

  function HeightAll(ns: seq<Node>): nat
    decreases ns
  {
    if ns == [] then 0 else Max(Height(ns[|ns| - 1]), HeightAll(ns[..|ns| - 1]))
  }

  /** At most ten edges a node (parser.h:8). */
  predicate Narrow(n: Node)
    decreases n
  {
    |n.edges| <= 10 && NarrowAll(n.edges)
  }

  predicate NarrowAll(ns: seq<Node>)
    decreases ns
  {
    ns == [] || (Narrow(ns[|ns| - 1]) && NarrowAll(ns[..|ns| - 1]))
  }

  function Addrs(ns: seq<Node>): set<nat> {
    set i | 0 <= i < |ns| :: ns[i].addr
  }

  /** No node is in two places. */
  ghost predicate NoSharing(ns: seq<Node>) {
    forall i, j :: 0 <= i < j < |ns| ==> ns[i].addr != ns[j].addr
  }

  lemma {:induction false} PreorderSplit(xs: seq<Node>, ys: seq<Node>)
    ensures PreorderAll(xs + ys) == PreorderAll(ys) + PreorderAll(xs)
    decreases |ys|
  {
    if ys == [] {
      assert xs + ys == xs;
    } else {
      hide Preorder;
      var front, last := ys[..|ys| - 1], ys[|ys| - 1];
      PreorderSplit(xs, front);
      assert (xs + ys)[..|xs + ys| - 1] == xs + front && (xs + ys)[|xs + ys| - 1] == last;
      assert Preorder(last) + (PreorderAll(front) + PreorderAll(xs)) == (Preorder(last) + PreorderAll(front)) + PreorderAll(xs);
    }
  }

  lemma {:induction false} PeakSplit(xs: seq<Node>, ys: seq<Node>, cap: nat)
    requires |xs| + |ys| <= cap
    ensures PeakAll(xs + ys) <= cap <==> PeakAll(xs) <= cap && (ys == [] || |xs| + PeakAll(ys) <= cap)
    decreases |ys|
  {
    if ys == [] {
      assert xs + ys == xs;
    } else {
      var front := ys[..|ys| - 1];
      PeakSplit(xs, front, cap);
      assert (xs + ys)[..|xs + ys| - 1] == xs + front;
    }
  }

  /** The pending stack stays within 1 + 9 * height entries. */
  lemma {:induction false} PeakBound(n: Node)
    requires Narrow(n)
    ensures Peak(n) <= 1 + 9 * Height(n)
    decreases n, 1
  {
    PeakAllBound(n.edges);
  }

  lemma {:induction false} PeakAllBound(ns: seq<Node>)
    requires NarrowAll(ns) && |ns| <= 10
    ensures ns != [] ==> PeakAll(ns) <= 10 + 9 * HeightAll(ns)
    decreases ns, 0
  {
    if ns != [] {
      PeakBound(ns[|ns| - 1]);
      PeakAllBound(ns[..|ns| - 1]);
    }
  }

  /** So trees of height at most 11 are always listed. */
  lemma HeightElevenFits(n: Node)
    requires Narrow(n) && Height(n) <= 11
    ensures Peak(n) <= 100
  {
    PeakBound(n);
  }

  /** cabor_stack: a fixed array of pointers and the number in use. */
  class Stack {
    const memory: array<Option<Node>>
    var top: nat

    ghost predicate Valid()
      reads this, memory
    {
      top <= memory.Length && forall i :: 0 <= i < top ==> memory[i].Some?
    }

    ghost function Contents(): (s: seq<Node>)
      requires Valid()
      reads this, memory
      ensures |s| == top
    {
      seq(top, i requires 0 <= i < top reads this, memory requires Valid() => memory[i].value)
    }

    constructor (capacity: nat)
      ensures Valid() && Contents() == [] && fresh(memory) && memory.Length == capacity
    {
      memory := new Option<Node>[capacity](_ => None);
      top := 0;
    }

    method Push(n: Node)
      requires Valid() && top < memory.Length
      modifies this, memory
      ensures Valid() && Contents() == old(Contents()) + [n]
    {
      memory[top] := Some(n);
      top := top + 1;
    }

    method Pop() returns (n: Option<Node>)
      requires Valid()
      modifies this, memory
      ensures Valid()
      ensures match n
              case None => old(Contents()) == [] && Contents() == []
              case Some(node) => old(Contents()) == Contents() + [node]
    {
      n := None;
      if top > 0 {
        top := top - 1;
        n := memory[top];
        memory[top] := None;
      }
    }
  }

  method IsVisited(nodes: seq<Node>, n: Node) returns (found: bool)
    ensures found == (n.addr in Addrs(nodes))
  {
    for i := 0 to |nodes|
      invariant n.addr !in Addrs(nodes[..i])
    {
      if nodes[i].addr == n.addr {
        return true;
      }
    }
    found := false;
  }

  /** One node taken from the stack: it heads what is left to list, and its edges take its place. */
  lemma ExpandOrder(rest: seq<Node>, n: Node)
    ensures PreorderAll(rest + [n]) == [n] + PreorderAll(rest + n.edges)
  {
    hide Preorder, PreorderAll;
    PreorderSplit(rest, [n]);
    PreorderSplit(rest, n.edges);
    OneOnTop(n);
    var xs, ys := PreorderAll(n.edges), PreorderAll(rest);
    assert [n] + (xs + ys) == ([n] + xs) + ys;
  }

  lemma ExpandPeak(rest: seq<Node>, n: Node)
    requires |rest| < STACK_CAPACITY
    ensures PeakAll(rest + [n]) <= STACK_CAPACITY <==>
            |rest| + |n.edges| <= STACK_CAPACITY && PeakAll(rest + n.edges) <= STACK_CAPACITY
  {
    hide Peak, PeakAll;
    PeakSplit(rest, [n], STACK_CAPACITY);
    OneOnTop(n);
    if |rest| + |n.edges| <= STACK_CAPACITY {
      PeakSplit(rest, n.edges, STACK_CAPACITY);
      PeakNone(n);
    }
  }

  lemma PeakNone(n: Node)
    ensures n.edges == [] ==> PeakAll(n.edges) == 0
  {
  }

  lemma OneOnTop(n: Node)
    ensures PreorderAll([n]) == [n] + PreorderAll(n.edges)
    ensures PeakAll([n]) == Max(1, PeakAll(n.edges))
  {
    assert [n][..0] == [];
    assert PreorderAll([n]) == Preorder(n) + [];
  }

  lemma FirstVisit(all: seq<Node>, nodes: seq<Node>, n: Node, rest: seq<Node>)
    requires NoSharing(all) && all == nodes + [n] + rest
    ensures n.addr !in Addrs(nodes) && |nodes| < |all|
  {
    assert all[|nodes|] == n && all[..|nodes|] == nodes;
  }

  /** The neighbours go on the stack in order, unless one would not fit. */
  method PushAll(stack: Stack, ns: seq<Node>) returns (fits: bool)
    requires stack.Valid()
    modifies stack, stack.memory
    ensures stack.Valid() && fits == (old(|stack.Contents()|) + |ns| <= stack.memory.Length)
    ensures fits ==> stack.Contents() == old(stack.Contents()) + ns
  {
    for i := 0 to |ns|
      invariant stack.Valid() && stack.Contents() == old(stack.Contents()) + ns[..i]
    {
      if stack.top == stack.memory.Length {
        return false;
      }
      stack.Push(ns[i]);
    }
    assert ns[..|ns|] == ns;
    fits := true;
  }

  /** cabor_get_ast_node_list_al: every node once, in preorder, exactly when the stack never overflows. */
  method ListNodes(root: Node) returns (r: Option<seq<Node>>)
    requires NoSharing(Preorder(root))
    ensures r == if Peak(root) <= 100 then Some(Preorder(root)) else None
  {
    hide Preorder, Peak, PeakAll, PreorderAll, NoSharing, Addrs;
    var stack := new Stack(STACK_CAPACITY);
    var nodes := [];
    stack.Push(root);
    Start(root);
    assert stack.Contents() == [root] && [] + Preorder(root) == Preorder(root);
    while true
      invariant stack.Valid() && fresh(stack) && fresh(stack.memory) && stack.memory.Length == STACK_CAPACITY
      invariant Preorder(root) == nodes + PreorderAll(stack.Contents())
      invariant Peak(root) <= STACK_CAPACITY <==> PeakAll(stack.Contents()) <= STACK_CAPACITY
      decreases |Preorder(root)| - |nodes|
    {
      var popped := stack.Pop();
      if popped.None? {
        Done();
        assert nodes + [] == nodes;
        return Some(nodes);
      }
      var n, rest := popped.value, stack.Contents();
      ExpandOrder(rest, n);
      ExpandPeak(rest, n);
      assert Preorder(root) == nodes + [n] + PreorderAll(rest + n.edges);
      FirstVisit(Preorder(root), nodes, n, PreorderAll(rest + n.edges));
      var visited := IsVisited(nodes, n);
      if !visited {
        nodes := nodes + [n];
        var fits := PushAll(stack, n.edges);
        if !fits {
          return None;
        }
      }
    }
  }

  lemma Start(root: Node)
    ensures PreorderAll([root]) == Preorder(root) && PeakAll([root]) == Peak(root)
  {
    OneOnTop(root);
  }

  lemma Done()
    ensures PreorderAll([]) == [] && PeakAll([]) == 0
  {
  }

  lemma {:induction false} LeavesFlat(ns: seq<Node>)
    requires forall i :: 0 <= i < |ns| ==> ns[i].edges == []
    ensures NarrowAll(ns) && PeakAll(ns) == |ns| && HeightAll(ns) == 0
  {
    if ns != [] {
      LeavesFlat(ns[..|ns| - 1]);
    }
  }

  /** The nodes the parser allocates for a tree: a variable's name and declared type have nodes of their own. */
  function NodeCount(a: Ast): (n: nat)
    ensures n >= 1
    decreases a
  {
    match a
    case Literal(_, _) => 1
    case Identifier(_, _) => 1
    case Unary(_, arg, _) => 1 + NodeCount(arg)
    case Binary(_, left, right, _) => 1 + NodeCount(left) + NodeCount(right)
    case Call(_, args, _) => 1 + NodeCountAll(args)
    case UnitNode => 1
    case Block(stmts, _) => 1 + NodeCountAll(stmts)
    case IfThen(cond, thn, _) => 1 + NodeCount(cond) + NodeCount(thn)
    case IfElse(cond, thn, els, _) => 1 + NodeCount(cond) + NodeCount(thn) + NodeCount(els)
    case While(cond, body, _) => 1 + NodeCount(cond) + NodeCount(body)
    case VarExpr(_, init, decl, _) => (if decl == "" then 2 else 3) + NodeCount(init)
  }

  function NodeCountAll(es: seq<Ast>): nat
    decreases es
  {
    if es == [] then 0 else NodeCount(es[|es| - 1]) + NodeCountAll(es[..|es| - 1])
  }

  /** The nodes in memory are those of the tree, with the edges the parser gives each. */
  predicate Represents(n: Node, a: Ast)
    decreases a
  {
    var ns := n.edges;
    match a
    case Literal(_, _) => ns == []
    case Identifier(_, _) => ns == []
    case Unary(_, arg, _) => |ns| == 1 && Represents(ns[0], arg)
    case Binary(_, left, right, _) => |ns| == 2 && Represents(ns[0], left) && Represents(ns[1], right)
    case Call(_, args, _) => RepresentsAll(ns, args)
    case UnitNode => ns == []
    case Block(stmts, _) => RepresentsAll(ns, stmts)
    case IfThen(cond, thn, _) => |ns| == 2 && Represents(ns[0], cond) && Represents(ns[1], thn)
    case IfElse(cond, thn, els, _) =>
      |ns| == 3 && Represents(ns[0], cond) && Represents(ns[1], thn) && Represents(ns[2], els)
    case While(cond, body, _) => |ns| == 2 && Represents(ns[0], cond) && Represents(ns[1], body)
    case VarExpr(_, init, decl, _) =>
      && |ns| == (if decl == "" then 2 else 3) && Represents(ns[1], init)
      && ns[0].edges == [] && (decl != "" ==> ns[2].edges == [])
  }

  predicate RepresentsAll(ns: seq<Node>, es: seq<Ast>)
    decreases es
  {
    |ns| == |es| && (es == [] || (Represents(ns[|ns| - 1], es[|es| - 1]) && RepresentsAll(ns[..|ns| - 1], es[..|es| - 1])))
  }

  /** Listing a tree's nodes gives as many as the parser allocated for it. */
  lemma {:induction false} ListsAllocated(n: Node, a: Ast)
    requires Represents(n, a)
    ensures |Preorder(n)| == NodeCount(a)
    decreases a
  {
    var ns := n.edges;
    Counts(ns);
    match a
    case Unary(_, arg, _) => ListsAllocated(ns[0], arg);
    case Binary(_, left, right, _) =>
      ListsAllocated(ns[0], left);
      ListsAllocated(ns[1], right);
    case Call(_, args, _) => ListsAll(ns, args);
    case Block(stmts, _) => ListsAll(ns, stmts);
    case IfThen(cond, thn, _) =>
      ListsAllocated(ns[0], cond);
      ListsAllocated(ns[1], thn);
    case IfElse(cond, thn, els, _) =>
      ListsAllocated(ns[0], cond);
      ListsAllocated(ns[1], thn);
      ListsAllocated(ns[2], els);
    case While(cond, body, _) =>
      ListsAllocated(ns[0], cond);
      ListsAllocated(ns[1], body);
    case VarExpr(_, init, _, _) =>
      ListsAllocated(ns[1], init);
    case _ =>
  }

  /** Listing up to three trees, and a leaf. */
  lemma Counts(ns: seq<Node>)
    ensures |ns| == 1 ==> |PreorderAll(ns)| == |Preorder(ns[0])|
    ensures |ns| == 2 ==> |PreorderAll(ns)| == |Preorder(ns[0])| + |Preorder(ns[1])|
    ensures |ns| == 3 ==> |PreorderAll(ns)| == |Preorder(ns[0])| + |Preorder(ns[1])| + |Preorder(ns[2])|
    ensures forall i :: 0 <= i < |ns| && ns[i].edges == [] ==> Preorder(ns[i]) == [ns[i]]
  {
    hide Preorder;
    if 1 <= |ns| <= 3 {
      var two := ns[..|ns| - 1];
      if |two| > 0 {
        var one := two[..|two| - 1];
        assert |one| > 0 ==> one[..|one| - 1] == [];
      }
    }
    forall i | 0 <= i < |ns| && ns[i].edges == []
      ensures Preorder(ns[i]) == [ns[i]]
    {
      LeafOrder(ns[i]);
    }
  }

  lemma LeafOrder(n: Node)
    requires n.edges == []
    ensures Preorder(n) == [n]
  {
  }

  lemma {:induction false} ListsAll(ns: seq<Node>, es: seq<Ast>)
    requires RepresentsAll(ns, es)
    ensures |PreorderAll(ns)| == NodeCountAll(es)
    decreases es
  {
    if es != [] {
      ListsAllocated(ns[|ns| - 1], es[|es| - 1]);
      ListsAll(ns[..|ns| - 1], es[..|es| - 1]);
    }
  }

  /** The live allocations and their total size (src/core/memory.c). */
  class Allocator {
    var live: set<nat>
    var bytes: int

    constructor (live: set<nat>, bytes: int)
      ensures this.live == live && this.bytes == bytes
    {
      this.live, this.bytes := live, bytes;
    }

    /** Each address may be freed once. */
    method Free(addr: nat, size: nat)
      requires addr in live
      modifies this
      ensures live == old(live) - {addr} && bytes == old(bytes) - size
    {
      live, bytes := live - {addr}, bytes - size;
    }

    /** cabor_free_ast: every node of the tree is freed once, and nothing else. */
    method FreeAst(root: Node, nodeSize: nat) returns (ok: bool)
      requires NoSharing(Preorder(root)) && Addrs(Preorder(root)) <= live
      modifies this
      ensures ok == (Peak(root) <= 100)
      ensures ok ==> live == old(live) - Addrs(Preorder(root)) && bytes == old(bytes) - |Preorder(root)| * nodeSize
      ensures !ok ==> live == old(live) && bytes == old(bytes)
    {
      hide Preorder, Peak;
      var list := ListNodes(root);
      if list.None? {
        return false;
      }
      var nodes := list.value;
      for i := 0 to |nodes|
        invariant live == old(live) - Addrs(nodes[..i]) && bytes == old(bytes) - i * nodeSize
      {
        assert nodes[i].addr in Addrs(nodes) && nodes[i].addr !in Addrs(nodes[..i]);
        Free(nodes[i].addr, nodeSize);
        assert Addrs(nodes[..i + 1]) == Addrs(nodes[..i]) + {nodes[i].addr};
      }
      assert nodes[..|nodes|] == nodes;
      ok := true;
    }
  }
}
