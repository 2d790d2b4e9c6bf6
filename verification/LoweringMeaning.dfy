/**
 Lowering preserves meaning: the emitted code, run from its first instruction, makes the calls that
 left-to-right evaluation of the tree makes, leaves the value in the returned variable, writes only
 variables created for the tree, and ends exactly when the evaluation does.
*/
module LoweringMeaning {
  import opened Words
  import opened Syntax
  import opened SourceSemantics
  import opened Ir
  import opened Lowering
  import opened LoweringShape
  import opened ClosedControlFlow

  /** Program p contains the code emitted between g and h, and places the labels created there nowhere else. */
  ghost predicate Hosts(p: Prog, g: Gen, h: Gen) {
    && Extends(g, h) && h.code <= p.code && h.vars <= p.vars
    && forall l :: Between(g, l, h) ==> Placed(g.code, l) == 0 && Placed(p.code, l) == Placed(h.code, l)
  }

  lemma HostsPart(p: Prog, g: Gen, g1: Gen, h1: Gen, h: Gen)
    requires Hosts(p, g, h) && Extends(g, g1) && Extends(g1, h1) && Extends(h1, h)
    requires PlacesNone(g, g1, |g1.labels|, |h1.labels|) && PlacesNone(h1, h, |g1.labels|, |h1.labels|)
    ensures Hosts(p, g1, h1)
  {
    forall l | Between(g1, l, h1)
      ensures Placed(g1.code, l) == 0 && Placed(p.code, l) == Placed(h1.code, l)
    {
      assert Between(g, l, h);
      assert Places(g, g1, l, 0) && Places(h1, h, l, 0);
    }
  }

  /** A label placed once leads to its place. */
  lemma HostedLabel(p: Prog, g: Gen, h: Gen, q: nat, l: int)
    requires Hosts(p, g, h) && |g.code| <= q < |h.code| && h.code[q] == Label(l)
    requires Between(g, l, h) && Places(g, h, l, 1)
    ensures FindLabel(p.code, l) == Some(q)
  {
    PlacedOnceBefore(h.code, q);
    HostedFirst(p, g, h, q, l);
  }

  /** A label leads to where it is first placed. */
  lemma HostedFirst(p: Prog, g: Gen, h: Gen, q: nat, l: int)
    requires Hosts(p, g, h) && |g.code| <= q < |h.code| && h.code[q] == Label(l) && Placed(h.code[..q], l) == 0
    ensures FindLabel(p.code, l) == Some(q)
  {
    assert p.code[q] == h.code[q] && p.code[..q] == h.code[..q];
    FindFirst(p.code, q);
  }

  /** A label created but not placed leads nowhere. */
  lemma HostedNever(p: Prog, g: Gen, h: Gen, l: int)
    requires Hosts(p, g, h) && Between(g, l, h) && Places(g, h, l, 0)
    ensures FindLabel(p.code, l) == None
  {
    NeverFound(p.code, l);
  }

  /** Every variable of the source environment lives in the IR variable its scope binds. */
  ghost predicate EnvRel(env: Env, s: Scope, store: Store, n: nat) {
    forall x :: x in env ==> x in s && 2 <= s[x] < n && s[x] in store && store[s[x]] == env[x]
  }

  /** Variables below n keep their values. */
  ghost predicate Frame(before: Store, after: Store, n: nat) {
    forall v :: v in before && v < n ==> v in after && after[v] == before[v]
  }

  lemma FrameThen(a: Store, b: Store, c: Store, n: nat, m: nat)
    requires Frame(a, b, n) && Frame(b, c, m) && n <= m
    ensures Frame(a, c, n)
  {
  }

  lemma FrameWrite(a: Store, b: Store, n: nat, v: int, w: Word)
    requires Frame(a, b, n) && n <= v
    ensures Frame(a, b[v := w], n)
  {
  }

  lemma FrameKeeps(a: Store, b: Store, n: nat, v: int)
    requires Frame(a, b, n) && v < n && v in a
    ensures v in b && b[v] == a[v]
  {
  }

  lemma EnvRelKept(env: Env, s: Scope, store: Store, n: nat, s': Scope, store': Store, n': nat)
    requires EnvRel(env, s, store, n) && ScopeExt(s, s') && Frame(store, store', n) && n <= n'
    ensures EnvRel(env, s', store', n')
  {
  }

  /** What running code that ends at `end` must do when evaluation comes to no value: be inside it still, or stuck there. */
  ghost predicate Cut(out: Outcome, end: nat, p: Prog, o: Oracle, fuel: nat, c: Cfg, n: nat, d: Cfg) {
    match out
    case Done(_, _) => false
    case Timeout(tr) => Run(p, o, c, n) == Some(d) && d.trace == tr && d.pc < end && n >= fuel
    case Elseless(tr) => Run(p, o, c, n) == Some(d) && d.trace == tr && d.pc < end && !Halted(p, d) && Step(p, o, d) == None
    case Wrong => false
  }

  /** What running the code of node a from c must do, given what evaluating a does. */
  ghost predicate Simulated(a: Ast, out: Outcome, g: Gen, r: Low, p: Prog, o: Oracle, fuel: nat, c: Cfg, n: nat, d: Cfg) {
    if !out.Done? then Cut(out, |r.g.code|, p, o, fuel, c, n, d) else
    var Done(val, tr) := out;
      && Run(p, o, c, n) == Some(d) && d.trace == tr && d.pc == |r.g.code|
      && Frame(c.store, d.store, |g.vars|)
      && (IsValue(a) ==> r.v in d.store && d.store[r.v] == val)
      && (a.VarExpr? ==> |g.vars| in d.store && d.store[|g.vars|] == val)
  }

  ghost predicate ArgsSimulated(out: ArgsOutcome, g: Gen, r: LowArgs, p: Prog, o: Oracle, fuel: nat, c: Cfg, n: nat, d: Cfg) {
    match out
    case ArgsCut(cut) => Cut(cut, |r.g.code|, p, o, fuel, c, n, d)
    case ArgsDone(vals, tr) =>
      && Run(p, o, c, n) == Some(d) && d.trace == tr && d.pc == |r.g.code|
      && Frame(c.store, d.store, |g.vars|)
      && AllIn(r.vs, d.store) && ReadAll(r.vs, d.store) == vals
  }

  /** The state in which the code of a node is entered. */
  ghost predicate Entry(g: Gen, s: Scope, env: Env, callees: set<string>, c: Cfg) {
    && ScopeOk(s, g.vars) && |g.vars| >= 2 && callees <= s.Keys
    && EnvRel(env, s, c.store, |g.vars|) && c.pc == |g.code|
  }

  /** Code further on is entered with the same environment, as long as its variables are kept. */
  lemma EntryKept(g: Gen, s: Scope, env: Env, callees: set<string>, c: Cfg, g1: Gen, s1: Scope, e: Cfg)
    requires Entry(g, s, env, callees, c) && ScopeExt(s, s1) && ScopeOk(s1, g1.vars) && |g.vars| <= |g1.vars|
    requires Frame(c.store, e.store, |g.vars|) && e.pc == |g1.code|
    ensures Entry(g1, s1, env, callees, e)
  {
    EnvRelKept(env, s, c.store, |g.vars|, s1, e.store, |g1.vars|);
  }

  lemma FrameSelf(a: Store, n: nat)
    ensures Frame(a, a, n)
  {
  }

  lemma RunNone(p: Prog, o: Oracle, c: Cfg)
    ensures Run(p, o, c, 0) == Some(c)
  {
  }

  /** The value just computed cannot be overwritten by code that follows. */
  lemma OperandBound(a: Ast, g: Gen, s: Scope, env: Env, callees: set<string>, c: Cfg)
    requires Operand(a) && Scoped(a, env.Keys, callees) && Entry(g, s, env, callees, c)
    ensures 2 <= Visit(a, g, s).v < |Visit(a, g, s).g.vars|
  {
    VisitValue(a, g, s, env.Keys, callees);
  }

  lemma {:induction false} SimNode(a: Ast, g: Gen, s: Scope, p: Prog, o: Oracle, env: Env, callees: set<string>,
                                   fuel: nat, c: Cfg) returns (n: nat, d: Cfg)
    requires Fragment(a) && Scoped(a, env.Keys, callees)
    requires Entry(g, s, env, callees, c) && Hosts(p, g, Visit(a, g, s).g)
    ensures Simulated(a, Eval(a, env, c.trace, o, fuel), g, Visit(a, g, s), p, o, fuel, c, n, d)
    decreases fuel, a, 3
  {
    hide Run, Step, FindLabel, Hosts, Extends, Frame;
    match a
    case Literal(_, _) => n, d := SimLiteral(a, g, s, p, o, env, fuel, c);
    case Identifier(_, _) => n, d := SimNothing(a, g, s, p, o, env, callees, fuel, c);
    case UnitNode => n, d := SimNothing(a, g, s, p, o, env, callees, fuel, c);
    case Unary(_, _, _) => n, d := SimUnary(a, g, s, p, o, env, callees, fuel, c);
    case Binary(_, _, _, _) => n, d := SimBinary(a, g, s, p, o, env, callees, fuel, c);
    case Call(_, _, _) => n, d := SimCall(a, g, s, p, o, env, callees, fuel, c);
    case Block(_, _) => n, d := SimBlock(a, g, s, p, o, env, callees, fuel, c);
    case IfThen(_, _, _) => n, d := SimIfThen(a, g, s, p, o, env, callees, fuel, c);
    case IfElse(_, _, _, _) => n, d := SimIfElse(a, g, s, p, o, env, callees, fuel, c);
    case While(_, _, _) => n, d := SimWhile(a, g, s, p, o, env, callees, fuel, c);
    case VarExpr(_, _, _, _) => n, d := SimVarExpr(a, g, s, p, o, env, callees, fuel, c);
  }

  lemma SimLiteral(a: Ast, g: Gen, s: Scope, p: Prog, o: Oracle, env: Env, fuel: nat, c: Cfg)
    returns (n: nat, d: Cfg)
    requires a.Literal? && Fragment(a) && c.pc == |g.code| && Hosts(p, g, VisitLiteral(a.text, a.ty, g, s).g)
    ensures Simulated(a, Eval(a, env, c.trace, o, fuel), g, VisitLiteral(a.text, a.ty, g, s), p, o, fuel, c, n, d)
  {
    var h := VisitLiteral(a.text, a.ty, g, s).g;
    assert p.code[|g.code|] == h.code[|g.code|];
    WrapFixesWords(LiteralInt(a.text));
    n, d := 1, Step(p, o, c).value;
    assert Run(p, o, c, 1) == Run(p, o, d, 0);
  }

  lemma SimNothing(a: Ast, g: Gen, s: Scope, p: Prog, o: Oracle, env: Env, callees: set<string>, fuel: nat, c: Cfg)
    returns (n: nat, d: Cfg)
    requires (a.Identifier? || a.UnitNode?) && Scoped(a, env.Keys, callees) && Entry(g, s, env, callees, c)
    ensures Simulated(a, Eval(a, env, c.trace, o, fuel), g, Visit(a, g, s), p, o, fuel, c, n, d)
  {
    n, d := 0, c;
  }

  /** The call instruction emitted last, once its arguments are computed. */
  lemma CallStep(g: Gen, fn: int, args: seq<int>, ty: Ty, p: Prog, o: Oracle, callee: string, c: Cfg, m: nat, d: Cfg)
    returns (e: Cfg)
    requires var h := EmitCall(g, fn, args, ty); h.code <= p.code && h.vars <= p.vars
    requires Run(p, o, c, m) == Some(d) && d.pc == |g.code|
    requires 0 <= fn < |g.vars| && g.vars[fn].name == callee && AllIn(args, d.store)
    ensures var x := Perform(o, callee, ReadAll(args, d.store), d.trace);
            Run(p, o, c, m + 1) == Some(e) && e == Cfg(|g.code| + 1, d.store[|g.vars| := x.val], x.trace)
  {
    var h := EmitCall(g, fn, args, ty);
    assert p.code[|g.code|] == h.code[|g.code|] == CallFn(fn, args, |g.vars|);
    assert p.vars[fn] == h.vars[fn] == g.vars[fn];
    RunOne(p, o, c, m, d);
    e := Step(p, o, d).value;
  }

  lemma UnaryLayout(a: Ast, g: Gen, s: Scope, p: Prog, env: Env, callees: set<string>, c: Cfg)
    requires a.Unary? && Entry(g, s, env, callees, c) && Hosts(p, g, VisitUnary(a, g, s).g)
    ensures var fn := "unary_" + a.op;
            var (g0, s0) := Require(g, s, fn, TUnit);
            var x := Visit(a.arg, g0, s0);
            var h := EmitCall(x.g, s0[fn], [x.v], a.ty);
            && Entry(g0, s0, env, callees, c) && Hosts(p, g0, x.g)
            && h.code <= p.code && h.vars <= p.vars && |g.vars| <= |g0.vars| <= |x.g.vars|
            && 0 <= s0[fn] < |x.g.vars| && x.g.vars[s0[fn]].name == fn
            && VisitUnary(a, g, s) == Low(h, x.s, |x.g.vars|) && |h.code| == |x.g.code| + 1
  {
    hide Run, Step, FindLabel;
    var fn := "unary_" + a.op;
    var (g0, s0) := Require(g, s, fn, TUnit);
    var x := Visit(a.arg, g0, s0);
    RequireOk(g, s, fn, TUnit);
    VisitExtends(a.arg, g0, s0);
    CallPlacesNone(x.g, s0[fn], [x.v], a.ty, |g0.labels|, |x.g.labels|);
    HostsPart(p, g, g0, x.g, VisitUnary(a, g, s).g);
    FrameSelf(c.store, |g.vars|);
    EntryKept(g, s, env, callees, c, g0, s0, c);
    ScopeOkGrows(s0, g0, x.g);
  }

  lemma {:induction false} SimUnary(a: Ast, g: Gen, s: Scope, p: Prog, o: Oracle, env: Env, callees: set<string>,
                                    fuel: nat, c: Cfg) returns (n: nat, d: Cfg)
    requires a.Unary? && Fragment(a) && Scoped(a, env.Keys, callees)
    requires Entry(g, s, env, callees, c) && Hosts(p, g, VisitUnary(a, g, s).g)
    ensures Simulated(a, Eval(a, env, c.trace, o, fuel), g, VisitUnary(a, g, s), p, o, fuel, c, n, d)
    decreases fuel, a, 2
  {
    hide Run, Step, FindLabel, Hosts, Extends, EnvRel, ScopeOk;
    var fn := "unary_" + a.op;
    var (g0, s0) := Require(g, s, fn, TUnit);
    var x := Visit(a.arg, g0, s0);
    UnaryLayout(a, g, s, p, env, callees, c);
    n, d := SimNode(a.arg, g0, s0, p, o, env, callees, fuel, c);
    if Eval(a.arg, env, c.trace, o, fuel).Done? {
      var before := d;
      d := CallStep(x.g, s0[fn], [x.v], a.ty, p, o, fn, c, n, d);
      assert ReadAll([x.v], before.store) == [before.store[x.v]];
      n := n + 1;
    }
  }

  lemma BinaryLayout(a: Ast, g: Gen, s: Scope, p: Prog, env: Env, callees: set<string>, c: Cfg)
    requires a.Binary? && Fragment(a) && Scoped(a, env.Keys, callees)
    requires Entry(g, s, env, callees, c) && Hosts(p, g, VisitBinary(a, g, s).g)
    ensures var (g0, s0) := Require(g, s, a.op, a.ty);
            var x := Visit(a.left, g0, s0);
            var y := Visit(a.right, x.g, x.s);
            var h := EmitCall(y.g, y.s[a.op], [x.v, y.v], a.ty);
            && Entry(g0, s0, env, callees, c) && Hosts(p, g0, x.g)
            && ScopeExt(s0, x.s) && ScopeOk(x.s, x.g.vars) && Hosts(p, x.g, y.g)
            && 2 <= x.v < |x.g.vars| && |g.vars| <= |g0.vars| <= |x.g.vars| <= |y.g.vars| && |x.g.code| <= |y.g.code|
            && 0 <= y.s[a.op] < |y.g.vars| && y.g.vars[y.s[a.op]].name == a.op
            && h.code <= p.code && h.vars <= p.vars && |h.code| == |y.g.code| + 1
            && VisitBinary(a, g, s) == Low(h, y.s, |y.g.vars|)
  {
    hide Run, Step, FindLabel;
    var (g0, s0) := Require(g, s, a.op, a.ty);
    var x := Visit(a.left, g0, s0);
    var y := Visit(a.right, x.g, x.s);
    var h := VisitBinary(a, g, s).g;
    RequireOk(g, s, a.op, a.ty);
    FrameSelf(c.store, |g.vars|);
    EntryKept(g, s, env, callees, c, g0, s0, c);
    BinaryHosts(a, g, s, p);
    VisitScope(a.left, g0, s0);
    VisitScope(a.right, x.g, x.s);
    OperandBound(a.left, g0, s0, env, callees, c);
  }

  lemma BinaryHosts(a: Ast, g: Gen, s: Scope, p: Prog)
    requires a.Binary? && Hosts(p, g, VisitBinary(a, g, s).g)
    ensures var (g0, s0) := Require(g, s, a.op, a.ty);
            var x := Visit(a.left, g0, s0);
            var y := Visit(a.right, x.g, x.s);
            Hosts(p, g0, x.g) && Hosts(p, x.g, y.g)
  {
    hide Run, Step, FindLabel;
    var (g0, s0) := Require(g, s, a.op, a.ty);
    var x := Visit(a.left, g0, s0);
    var y := Visit(a.right, x.g, x.s);
    var h := VisitBinary(a, g, s).g;
    VisitExtends(a.left, g0, s0);
    VisitExtends(a.right, x.g, x.s);
    ExtendsTrans(x.g, y.g, h);
    ExtendsTrans(g, g0, x.g);
    VisitPlacesNone(a.right, x.g, x.s, |g0.labels|, |x.g.labels|);
    CallPlacesNone(y.g, y.s[a.op], [x.v, y.v], a.ty, |g0.labels|, |x.g.labels|);
    NoneThen(x.g, y.g, h, |g0.labels|, |x.g.labels|);
    HostsPart(p, g, g0, x.g, h);
    VisitPlacesNone(a.left, g0, s0, |x.g.labels|, |y.g.labels|);
    NoneBefore(g, g0, x.g, |x.g.labels|, |y.g.labels|);
    CallPlacesNone(y.g, y.s[a.op], [x.v, y.v], a.ty, |x.g.labels|, |y.g.labels|);
    HostsPart(p, g, x.g, y.g, h);
  }

  lemma {:induction false} SimBinary(a: Ast, g: Gen, s: Scope, p: Prog, o: Oracle, env: Env, callees: set<string>,
                                     fuel: nat, c: Cfg) returns (n: nat, d: Cfg)
    requires a.Binary? && Fragment(a) && Scoped(a, env.Keys, callees)
    requires Entry(g, s, env, callees, c) && Hosts(p, g, VisitBinary(a, g, s).g)
    ensures Simulated(a, Eval(a, env, c.trace, o, fuel), g, VisitBinary(a, g, s), p, o, fuel, c, n, d)
    decreases fuel, a, 2
  {
    hide Run, Step, FindLabel, Hosts, Extends, EnvRel, ScopeOk, ScopeExt, Frame, EmitCall, Visit, VisitBinary, Require;
    var (g0, s0) := Require(g, s, a.op, a.ty);
    var x := Visit(a.left, g0, s0);
    var y := Visit(a.right, x.g, x.s);
    BinaryLayout(a, g, s, p, env, callees, c);
    n, d := SimNode(a.left, g0, s0, p, o, env, callees, fuel, c);
    if Eval(a.left, env, c.trace, o, fuel).Done? {
      var m, b := n, d;
      EntryKept(g0, s0, env, callees, c, x.g, x.s, b);
      n, d := SimNode(a.right, x.g, x.s, p, o, env, callees, fuel, b);
      RunThen(p, o, c, m, b, n, d);
      n := m + n;
      if Eval(a.right, env, b.trace, o, fuel).Done? {
        FrameKeeps(b.store, d.store, |x.g.vars|, x.v);
        FrameThen(c.store, b.store, d.store, |g0.vars|, |x.g.vars|);
        FrameSelf(c.store, |g.vars|);
        FrameThen(c.store, c.store, d.store, |g.vars|, |g0.vars|);
        var e := d;
        d := CallStep(y.g, y.s[a.op], [x.v, y.v], a.ty, p, o, a.op, c, n, e);
        assert ReadAll([x.v, y.v], e.store) == [b.store[x.v], e.store[y.v]];
        FrameWrite(c.store, e.store, |g.vars|, |y.g.vars|, d.store[|y.g.vars|]);
        n := n + 1;
      }
    }
  }

  lemma {:induction false} SimCall(a: Ast, g: Gen, s: Scope, p: Prog, o: Oracle, env: Env, callees: set<string>,
                                   fuel: nat, c: Cfg) returns (n: nat, d: Cfg)
    requires a.Call? && Fragment(a) && Scoped(a, env.Keys, callees)
    requires Entry(g, s, env, callees, c) && Hosts(p, g, VisitCall(a, g, s).g)
    ensures Simulated(a, Eval(a, env, c.trace, o, fuel), g, VisitCall(a, g, s), p, o, fuel, c, n, d)
    decreases fuel, a, 2
  {
    hide Run, Step, FindLabel;
    var xs := VisitArgs(a.args, g, s);
    VisitArgsExtends(a.args, g, s);
    CallPlacesNone(xs.g, Lookup(s, a.callee), xs.vs, a.ty, |g.labels|, |xs.g.labels|);
    HostsPart(p, g, g, xs.g, VisitCall(a, g, s).g);
    n, d := SimArgs(a.args, g, s, p, o, env, callees, fuel, c);
    if EvalArgs(a.args, env, c.trace, o, fuel).ArgsDone? {
      ScopeOkGrows(s, g, xs.g);
      assert a.callee in s;
      d := CallStep(xs.g, s[a.callee], xs.vs, a.ty, p, o, a.callee, c, n, d);
      n := n + 1;
    }
  }

  lemma ReadAllNone(store: Store)
    ensures AllIn([], store) && ReadAll([], store) == []
  {
  }

  lemma ReadAllCons(v: int, vs: seq<int>, store: Store)
    requires v in store && AllIn(vs, store)
    ensures AllIn([v] + vs, store) && ReadAll([v] + vs, store) == [store[v]] + ReadAll(vs, store)
  {
  }

  lemma ArgsLayout(es: seq<Ast>, g: Gen, s: Scope, p: Prog, env: Env, callees: set<string>, c: Cfg)
    requires es != [] && Operands(es) && ScopedAll(es, env.Keys, callees)
    requires Entry(g, s, env, callees, c) && Hosts(p, g, VisitArgs(es, g, s).g)
    ensures var x := Visit(es[0], g, s);
            var xs := VisitArgs(es[1..], x.g, x.s);
            && Hosts(p, g, x.g) && Hosts(p, x.g, xs.g) && ScopeExt(s, x.s) && ScopeOk(x.s, x.g.vars)
            && 2 <= x.v < |x.g.vars| && |g.vars| <= |x.g.vars| && |x.g.code| <= |xs.g.code|
            && VisitArgs(es, g, s) == xs.(vs := [x.v] + xs.vs)
  {
    hide Run, Step, FindLabel;
    var x := Visit(es[0], g, s);
    var xs := VisitArgs(es[1..], x.g, x.s);
    VisitExtends(es[0], g, s);
    VisitArgsExtends(es[1..], x.g, x.s);
    VisitArgsPlacesNone(es[1..], x.g, x.s, |g.labels|, |x.g.labels|);
    HostsPart(p, g, g, x.g, xs.g);
    VisitPlacesNone(es[0], g, s, |x.g.labels|, |xs.g.labels|);
    HostsPart(p, g, x.g, xs.g, xs.g);
    VisitScope(es[0], g, s);
    OperandBound(es[0], g, s, env, callees, c);
  }

  lemma {:induction false} SimArgs(es: seq<Ast>, g: Gen, s: Scope, p: Prog, o: Oracle, env: Env, callees: set<string>,
                                   fuel: nat, c: Cfg) returns (n: nat, d: Cfg)
    requires Operands(es) && ScopedAll(es, env.Keys, callees)
    requires Entry(g, s, env, callees, c) && Hosts(p, g, VisitArgs(es, g, s).g)
    ensures ArgsSimulated(EvalArgs(es, env, c.trace, o, fuel), g, VisitArgs(es, g, s), p, o, fuel, c, n, d)
    decreases fuel, es, 0
  {
    hide Run, Step, FindLabel, Hosts, Extends, EnvRel, ScopeOk, ScopeExt, Frame, Visit, ReadAll, AllIn;
    n, d := 0, c;
    RunNone(p, o, c);
    ReadAllNone(c.store);
    FrameSelf(c.store, |g.vars|);
    if es != [] {
      var x := Visit(es[0], g, s);
      var xs := VisitArgs(es[1..], x.g, x.s);
      ArgsLayout(es, g, s, p, env, callees, c);
      n, d := SimNode(es[0], g, s, p, o, env, callees, fuel, c);
      if Eval(es[0], env, c.trace, o, fuel).Done? {
        var m, b := n, d;
        EntryKept(g, s, env, callees, c, x.g, x.s, b);
        n, d := SimArgs(es[1..], x.g, x.s, p, o, env, callees, fuel, b);
        RunThen(p, o, c, m, b, n, d);
        n := m + n;
        if EvalArgs(es[1..], env, b.trace, o, fuel).ArgsDone? {
          FrameKeeps(b.store, d.store, |x.g.vars|, x.v);
          FrameThen(c.store, b.store, d.store, |g.vars|, |x.g.vars|);
          ReadAllCons(x.v, xs.vs, d.store);
        }
      }
    }
  }

  lemma {:induction false} SimBlock(a: Ast, g: Gen, s: Scope, p: Prog, o: Oracle, env: Env, callees: set<string>,
                                    fuel: nat, c: Cfg) returns (n: nat, d: Cfg)
    requires a.Block? && Fragment(a) && Scoped(a, env.Keys, callees)
    requires Entry(g, s, env, callees, c) && Hosts(p, g, Visit(a, g, s).g)
    ensures Simulated(a, Eval(a, env, c.trace, o, fuel), g, Visit(a, g, s), p, o, fuel, c, n, d)
    decreases fuel, a, 2
  {
    hide Run, Step, FindLabel, Hosts, Frame;
    var none: Env := map[];
    assert none.Keys == {};
    n, d := SimStatements(a.stmts, g, map[], UNIT_VAR, 0, p, o, none, {}, fuel, c);
  }

  /** What running a statement list must do; last and lastVal stand for the statement before it. */
  ghost predicate StatementsSimulated(es: seq<Ast>, out: Outcome, g: Gen, r: Low, p: Prog, o: Oracle, fuel: nat,
                                      c: Cfg, n: nat, d: Cfg) {
    if !out.Done? then Cut(out, |r.g.code|, p, o, fuel, c, n, d) else
    var Done(val, tr) := out;
      && Run(p, o, c, n) == Some(d) && d.trace == tr && d.pc == |r.g.code|
      && Frame(c.store, d.store, |g.vars|)
      && (es != [] && IsValue(es[|es| - 1]) ==> r.v in d.store && d.store[r.v] == val)
  }

  lemma StatementsLayout(es: seq<Ast>, g: Gen, s: Scope, last: int, p: Prog)
    requires es != [] && Statements(es) && ScopeOk(s, g.vars) && Hosts(p, g, VisitStatements(es, g, s, last).g)
    ensures var x := Visit(es[0], g, s);
            var r := VisitStatements(es[1..], x.g, x.s, x.v);
            && Hosts(p, g, x.g) && Hosts(p, x.g, r.g) && |g.vars| <= |x.g.vars| && |x.g.code| <= |r.g.code|
            && VisitStatements(es, g, s, last) == r
  {
    hide Run, Step, FindLabel;
    var x := Visit(es[0], g, s);
    var r := VisitStatements(es[1..], x.g, x.s, x.v);
    VisitExtends(es[0], g, s);
    VisitStatementsExtends(es[1..], x.g, x.s, x.v);
    VisitStatementsPlacesNone(es[1..], x.g, x.s, x.v, |g.labels|, |x.g.labels|);
    HostsPart(p, g, g, x.g, r.g);
    VisitPlacesNone(es[0], g, s, |x.g.labels|, |r.g.labels|);
    HostsPart(p, g, x.g, r.g, r.g);
  }

  lemma {:induction false} SimStatements(es: seq<Ast>, g: Gen, s: Scope, last: int, lastVal: Word, p: Prog, o: Oracle,
                                         env: Env, callees: set<string>, fuel: nat, c: Cfg) returns (n: nat, d: Cfg)
    requires Statements(es) && ScopedStatements(es, env.Keys, callees)
    requires Entry(g, s, env, callees, c) && Hosts(p, g, VisitStatements(es, g, s, last).g)
    ensures StatementsSimulated(es, EvalStatements(es, env, c.trace, o, fuel, lastVal), g,
                                VisitStatements(es, g, s, last), p, o, fuel, c, n, d)
    decreases fuel, es, 0
  {
    hide Run, Step, FindLabel, Hosts, Extends, EnvRel, ScopeExt, ScopeOk, Frame, Visit, Fragment, Scoped;
    n, d := 0, c;
    RunNone(p, o, c);
    FrameSelf(c.store, |g.vars|);
    if es != [] {
      var a := es[0];
      var x := Visit(a, g, s);
      StatementsLayout(es, g, s, last, p);
      n, d := SimNode(a, g, s, p, o, env, callees, fuel, c);
      var out := Eval(a, env, c.trace, o, fuel);
      if out.Done? {
        var env1 := EnvAfter(a, out.val, g, s, env, callees, c, d);
        var m, b := n, d;
        n, d := SimStatements(es[1..], x.g, x.s, x.v, out.val, p, o, env1, callees, fuel, b);
        RunThen(p, o, c, m, b, n, d);
        n := m + n;
        StatementsEnd(es, x, out.val, g, env1, o, fuel, c, b, d);
        if |es| == 1 && IsValue(a) {
          OperandBound(a, g, s, env, callees, c);
          FrameKeeps(b.store, d.store, |x.g.vars|, x.v);
        }
      }
    }
  }

  /** The frame of the whole list, and the value of a list that ends here. */
  lemma StatementsEnd(es: seq<Ast>, x: Low, val: Word, g: Gen, env: Env, o: Oracle, fuel: nat, c: Cfg, b: Cfg, d: Cfg)
    requires es != [] && |g.vars| <= |x.g.vars| && Frame(c.store, b.store, |g.vars|)
    ensures Frame(b.store, d.store, |x.g.vars|) ==> Frame(c.store, d.store, |g.vars|)
    ensures |es| == 1 ==> VisitStatements(es[1..], x.g, x.s, x.v) == Low(x.g, x.s, x.v)
    ensures |es| == 1 ==> EvalStatements(es[1..], env, b.trace, o, fuel, val) == Done(val, b.trace)
    ensures |es| > 1 ==> es[1..][|es[1..]| - 1] == es[|es| - 1]
  {
  }

  /** The environment the following statements run in. */
  lemma EnvAfter(a: Ast, val: Word, g: Gen, s: Scope, env: Env, callees: set<string>, c: Cfg, d: Cfg)
    returns (env1: Env)
    requires Fragment(a) && Entry(g, s, env, callees, c) && Frame(c.store, d.store, |g.vars|)
    requires a.VarExpr? ==> |g.vars| in d.store && d.store[|g.vars|] == val
    requires d.pc == |Visit(a, g, s).g.code|
    ensures env1 == (if a.VarExpr? then env[a.name := val] else env)
    ensures env1.Keys == env.Keys + Declared(a)
    ensures var x := Visit(a, g, s); Entry(x.g, x.s, env1, callees, d)
  {
    env1 := if a.VarExpr? then env[a.name := val] else env;
    var x := Visit(a, g, s);
    VisitExtends(a, g, s);
    VisitScope(a, g, s);
    if a.VarExpr? {
      assert |g.vars| < |x.g.vars| by { VisitExtends(a.init, AddVar(g, a.name, a.ty), s); }
      forall y | y in env1
        ensures y in x.s && 2 <= x.s[y] < |x.g.vars| && x.s[y] in d.store && d.store[x.s[y]] == env1[y]
      {
        if y != a.name {
          assert y in s - {a.name};
        }
      }
    }
  }

  lemma {:induction false} SimVarExpr(a: Ast, g: Gen, s: Scope, p: Prog, o: Oracle, env: Env, callees: set<string>,
                                      fuel: nat, c: Cfg) returns (n: nat, d: Cfg)
    requires a.VarExpr? && Fragment(a) && Scoped(a, env.Keys, callees)
    requires Entry(g, s, env, callees, c) && Hosts(p, g, VisitVarExpr(a, g, s).g)
    ensures Simulated(a, Eval(a, env, c.trace, o, fuel), g, VisitVarExpr(a, g, s), p, o, fuel, c, n, d)
    decreases fuel, a, 2
  {
    hide Run, FindLabel, Visit;
    var g0 := AddVar(g, a.name, a.ty);
    var x := Visit(a.init, g0, s);
    var h := VisitVarExpr(a, g, s).g;
    ScopeOkGrows(s, g, g0);
    VisitExtends(a.init, g0, s);
    EmitPlacesNone(x.g, Copy(x.v, |g.vars|), |g0.labels|, |x.g.labels|);
    HostsPart(p, g, g0, x.g, h);
    n, d := SimNode(a.init, g0, s, p, o, env, callees, fuel, c);
    if Eval(a.init, env, c.trace, o, fuel).Done? {
      assert p.code[|x.g.code|] == h.code[|x.g.code|] == Copy(x.v, |g.vars|);
      RunOne(p, o, c, n, d);
      n, d := n + 1, Step(p, o, d).value;
    }
  }

  /** A conditional jump and the label it lands on. */
  lemma BranchSteps(x: Low, lTrue: int, lFalse: int, p: Prog, o: Oracle, c: Cfg, m: nat, d: Cfg, q: nat)
    requires Branch(x, lTrue, lFalse).code <= p.code
    requires Run(p, o, c, m) == Some(d) && d.pc == |x.g.code| && x.v in d.store
    requires FindLabel(p.code, if d.store[x.v] != 0 then lTrue else lFalse) == Some(q)
    ensures Run(p, o, c, m + 2) == Some(d.(pc := q + 1))
  {
    assert p.code[|x.g.code|] == Branch(x, lTrue, lFalse).code[|x.g.code|] == CondJump(x.v, lTrue, lFalse);
    RunOne(p, o, c, m, d);
    RunOne(p, o, c, m + 1, d.(pc := q));
  }

  /** A label is passed over. */
  lemma LabelStep(p: Prog, o: Oracle, c: Cfg)
    requires c.pc < |p.code| && p.code[c.pc].Label?
    ensures Run(p, o, c, 1) == Some(c.(pc := c.pc + 1))
  {
    RunNone(p, o, c);
    RunOne(p, o, c, 0, c);
  }

  /** A jump lands on its label. */
  lemma JumpStep(p: Prog, o: Oracle, c: Cfg, q: nat)
    requires c.pc < |p.code| && p.code[c.pc].Jump? && FindLabel(p.code, p.code[c.pc].target) == Some(q)
    ensures Run(p, o, c, 1) == Some(c.(pc := q))
  {
    RunNone(p, o, c);
    RunOne(p, o, c, 0, c);
  }

  /** Jumps to a label placed nowhere. */
  lemma NowhereToGo(p: Prog, o: Oracle, d: Cfg)
    requires d.pc < |p.code|
    requires match p.code[d.pc]
             case Jump(l) => FindLabel(p.code, l) == None
             case CondJump(v, _, e) => v in d.store && d.store[v] == 0 && FindLabel(p.code, e) == None
             case _ => false
    ensures Step(p, o, d) == None
  {
  }

  /** A copy to the join variable, followed by the jump to the end. */
  predicate JoinAt(p: Prog, at: nat, v: int, res: int, l: int) {
    at + 1 < |p.code| && p.code[at] == Copy(v, res) && p.code[at + 1] == Jump(l)
  }

  lemma JoinSteps(at: nat, v: int, res: int, l: int, p: Prog, o: Oracle, c: Cfg, m: nat, d: Cfg, q: nat)
    requires JoinAt(p, at, v, res, l) && FindLabel(p.code, l) == Some(q)
    requires Run(p, o, c, m) == Some(d) && d.pc == at && v in d.store
    ensures Run(p, o, c, m + 3) == Some(Cfg(q + 1, d.store[res := d.store[v]], d.trace))
  {
    RunOne(p, o, c, m, d);
    var e := Write(d, res, d.store[v]);
    RunOne(p, o, c, m + 1, e);
    RunOne(p, o, c, m + 2, e.(pc := q));
  }

  /** Each of the three stretches of an `if` has its labels to itself. */
  lemma IfPlacesNone(a: Ast, g: Gen, s: Scope)
    requires a.IfElse?
    ensures var k := |g.labels|;
            var (x, y, z) := IfParts(a, g, s);
            var g1, g2, h := Branch(x, k, k + 2), BeginElse(y, k), VisitIfElse(a, g, s).g;
            && PlacesNone(x.g, h, k + 3, |x.g.labels|)
            && PlacesNone(g, g1, |g1.labels|, |y.g.labels|) && PlacesNone(y.g, h, |g1.labels|, |y.g.labels|)
            && PlacesNone(g, g2, |g2.labels|, |z.g.labels|) && PlacesNone(z.g, h, |g2.labels|, |z.g.labels|)
  {
    hide Visit, PlacesNone, Extends;
    var k := |g.labels|;
    var (x, y, z) := IfParts(a, g, s);
    var m := |z.g.labels|;
    IfSizes(a, g, s);
    IfStretches(a, g, s, k + 3, |x.g.labels|);
    IfStretches(a, g, s, |x.g.labels|, |y.g.labels|);
    IfStretches(a, g, s, |y.g.labels|, |z.g.labels|);
  }

  /** What the stretches before and after a range of labels leave alone. */
  lemma IfStretches(a: Ast, g: Gen, s: Scope, lo: int, hi: int)
    requires a.IfElse? && |g.labels| + 3 <= lo
    ensures var k := |g.labels|;
            var (x, y, z) := IfParts(a, g, s);
            var g1, g2, h := Branch(x, k, k + 2), BeginElse(y, k), VisitIfElse(a, g, s).g;
            && (|x.g.labels| <= lo ==> PlacesNone(g, g1, lo, hi)) && (|y.g.labels| <= lo ==> PlacesNone(g, g2, lo, hi))
            && PlacesNone(z.g, h, lo, hi) && (hi <= |y.g.labels| ==> PlacesNone(y.g, h, lo, hi))
            && (hi <= |x.g.labels| ==> PlacesNone(x.g, h, lo, hi))
  {
    hide Visit, PlacesNone, Extends;
    var k := |g.labels|;
    var (x, y, z) := IfParts(a, g, s);
    var g0, g1, g2, h := AddIfLabels(g), Branch(x, k, k + 2), BeginElse(y, k), VisitIfElse(a, g, s).g;
    IfSizes(a, g, s);
    BranchPlacesNone(x, k, k + 2, lo, hi);
    BeginElsePlacesNone(y, k, lo, hi);
    EndIfPlacesNone(z, |y.g.vars|, k, lo, hi);
    if |x.g.labels| <= lo {
      VisitPlacesNone(a.cond, g0, s, lo, hi);
      NoneBefore(g, g0, x.g, lo, hi);
      NoneThen(g, x.g, g1, lo, hi);
      if |y.g.labels| <= lo {
        VisitPlacesNone(a.thn, g1, x.s, lo, hi);
        NoneThen(g, g1, y.g, lo, hi);
        NoneThen(g, y.g, g2, lo, hi);
      }
    }
    if hi <= |y.g.labels| {
      VisitPlacesNone(a.els, g2, y.s, lo, hi);
      NoneThen(y.g, g2, z.g, lo, hi);
      NoneThen(y.g, z.g, h, lo, hi);
      if hi <= |x.g.labels| {
        VisitPlacesNone(a.thn, g1, x.s, lo, hi);
        NoneThen(x.g, g1, y.g, lo, hi);
        NoneThen(x.g, y.g, h, lo, hi);
      }
    }
  }

  /** The stretches of an `if`'s code, each hosted by the program. */
  lemma IfHosts(a: Ast, g: Gen, s: Scope, p: Prog)
    requires a.IfElse? && Hosts(p, g, VisitIfElse(a, g, s).g)
    ensures var k := |g.labels|;
            var (x, y, z) := IfParts(a, g, s);
            Hosts(p, AddIfLabels(g), x.g) && Hosts(p, Branch(x, k, k + 2), y.g) && Hosts(p, BeginElse(y, k), z.g)
  {
    hide Run, Step, FindLabel;
    var k := |g.labels|;
    var (x, y, z) := IfParts(a, g, s);
    var g0, g1, g2, h := AddIfLabels(g), Branch(x, k, k + 2), BeginElse(y, k), VisitIfElse(a, g, s).g;
    IfElseExtends(a, g, s);
    VisitExtends(a.cond, g0, s);
    VisitExtends(a.thn, g1, x.s);
    VisitExtends(a.els, g2, y.s);
    IfElseChain(g, x.g, g1, y.g, g2, z.g, h);
    IfPlacesNone(a, g, s);
    HostsPart(p, g, g0, x.g, h);
    HostsPart(p, g, g1, y.g, h);
    HostsPart(p, g, g2, z.g, h);
  }

  /** Its labels lead to the starts of the branches and to its end. */
  predicate IfFound(a: Ast, g: Gen, s: Scope, p: Prog)
    requires a.IfElse?
  {
    var k := |g.labels|;
    var (x, y, z) := IfParts(a, g, s);
    && FindLabel(p.code, k) == Some(|Branch(x, k, k + 2).code| - 1)
    && FindLabel(p.code, k + 2) == Some(|BeginElse(y, k).code| - 1)
    && FindLabel(p.code, k + 1) == Some(|VisitIfElse(a, g, s).g.code| - 1)
  }

  /** The few instructions emitted between the stretches of an `if` or a `while`. */
  lemma BranchShape(x: Low, lTrue: int, lFalse: int)
    ensures var h, n := Branch(x, lTrue, lFalse), |x.g.code|;
            && |h.code| == n + 2 && |h.vars| == |x.g.vars|
            && h.code[n] == CondJump(x.v, lTrue, lFalse) && h.code[n + 1] == Label(lTrue)
  {
  }

  lemma BeginElseShape(y: Low, k: int)
    ensures var h, n := BeginElse(y, k), |y.g.code|;
            && |h.code| == n + 3 && |h.vars| == |y.g.vars| + 1
            && h.code[n] == Copy(y.v, |y.g.vars|) && h.code[n + 1] == Jump(k + 1) && h.code[n + 2] == Label(k + 2)
  {
  }

  lemma EndIfShape(z: Low, res: int, k: int)
    ensures var h, n := EndIf(z, res, k), |z.g.code|;
            && |h.code| == n + 3
            && h.code[n] == Copy(z.v, res) && h.code[n + 1] == Jump(k + 1) && h.code[n + 2] == Label(k + 1)
  {
  }

  lemma WhileShape(g: Gen, y: Low, k: int)
    ensures var h, n := BeginWhile(g), |g.code|; |h.code| == n + 1 && h.code[n] == Label(|g.labels|) && h.vars == g.vars
    ensures var h, n := EndWhile(y, k), |y.g.code|; |h.code| == n + 2 && h.code[n] == Jump(k) && h.code[n + 1] == Label(k + 2)
  {
  }

  lemma IfLabels(a: Ast, g: Gen, s: Scope, p: Prog)
    requires a.IfElse? && Hosts(p, g, VisitIfElse(a, g, s).g)
    ensures IfFound(a, g, s, p)
  {
    hide Run, Step, FindLabel, Visit, Hosts, Places, Placed, Branch, BeginElse, EndIf, PlacesOwn;
    var k := |g.labels|;
    var (x, y, z) := IfParts(a, g, s);
    var g1, g2, h := Branch(x, k, k + 2), BeginElse(y, k), VisitIfElse(a, g, s).g;
    IfElseExtends(a, g, s);
    VisitExtends(a.thn, g1, x.s);
    VisitExtends(a.els, g2, y.s);
    IfElseChain(g, x.g, g1, y.g, g2, z.g, h);
    IfElsePlacesOwn(a, g, s, k);
    IfElsePlacesOwn(a, g, s, k + 1);
    IfElsePlacesOwn(a, g, s, k + 2);
    BranchShape(x, k, k + 2);
    BeginElseShape(y, k);
    EndIfShape(z, |y.g.vars|, k);
    assert h.code[|g1.code| - 1] == g1.code[|g1.code| - 1] && h.code[|g2.code| - 1] == g2.code[|g2.code| - 1];
    HostedLabel(p, g, h, |g1.code| - 1, k);
    HostedLabel(p, g, h, |g2.code| - 1, k + 2);
    HostedLabel(p, g, h, |h.code| - 1, k + 1);
  }

  /** Where the code of an `if` has its labels, copies and jumps. */
  lemma IfSites(a: Ast, g: Gen, s: Scope, p: Prog)
    requires a.IfElse? && Hosts(p, g, VisitIfElse(a, g, s).g)
    ensures var k := |g.labels|;
            var (x, y, z) := IfParts(a, g, s);
            var r := VisitIfElse(a, g, s);
            var g1, g2 := Branch(x, k, k + 2), BeginElse(y, k);
            && r.v == |y.g.vars| && g1.code <= p.code
            && |g.vars| <= |x.g.vars| == |g1.vars| <= |y.g.vars| < |g2.vars| <= |z.g.vars|
            && |x.g.code| + 2 == |g1.code| <= |y.g.code| && |y.g.code| + 3 == |g2.code| <= |z.g.code|
            && |z.g.code| + 3 == |r.g.code| && IfFound(a, g, s, p)
            && JoinAt(p, |y.g.code|, y.v, |y.g.vars|, k + 1) && JoinAt(p, |z.g.code|, z.v, |y.g.vars|, k + 1)
  {
    hide Run, Step, FindLabel, Visit, Branch, BeginElse, EndIf, IfFound, Placed;
    var k := |g.labels|;
    var (x, y, z) := IfParts(a, g, s);
    var g1, g2, h := Branch(x, k, k + 2), BeginElse(y, k), VisitIfElse(a, g, s).g;
    BranchShape(x, k, k + 2);
    BeginElseShape(y, k);
    EndIfShape(z, |y.g.vars|, k);
    IfElseExtends(a, g, s);
    VisitExtends(a.thn, g1, x.s);
    VisitExtends(a.els, g2, y.s);
    IfElseChain(g, x.g, g1, y.g, g2, z.g, h);
    assert g2.code <= p.code;
    IfLabels(a, g, s, p);
    assert p.code[|z.g.code|] == h.code[|z.g.code|] && p.code[|z.g.code| + 1] == h.code[|z.g.code| + 1];
  }

  /** The scopes in which the parts of an `if` are lowered. */
  lemma IfScopes(a: Ast, g: Gen, s: Scope)
    requires a.IfElse? && Fragment(a) && ScopeOk(s, g.vars)
    ensures var k := |g.labels|;
            var (x, y, z) := IfParts(a, g, s);
            && ScopeOk(x.s, Branch(x, k, k + 2).vars) && ScopeExt(s, x.s)
            && ScopeOk(y.s, BeginElse(y, k).vars) && ScopeExt(s, y.s)
  {
    IfElseScope(a, g, s);
    var (x, y, z) := IfParts(a, g, s);
    ScopeOkGrows(y.s, y.g, BeginElse(y, |g.labels|));
  }

  lemma {:induction false} SimIfElse(a: Ast, g: Gen, s: Scope, p: Prog, o: Oracle, env: Env, callees: set<string>,
                                     fuel: nat, c: Cfg) returns (n: nat, d: Cfg)
    requires a.IfElse? && Fragment(a) && Scoped(a, env.Keys, callees)
    requires Entry(g, s, env, callees, c) && Hosts(p, g, VisitIfElse(a, g, s).g)
    ensures Simulated(a, Eval(a, env, c.trace, o, fuel), g, VisitIfElse(a, g, s), p, o, fuel, c, n, d)
    decreases fuel, a, 2
  {
    hide Run, Step, FindLabel, Hosts, Extends, EnvRel, ScopeOk, ScopeExt, Frame, VisitIfElse, BeginElse, Branch;
    var (x, y, z) := IfParts(a, g, s);
    IfHosts(a, g, s, p);
    IfSites(a, g, s, p);
    n, d := SimNode(a.cond, AddIfLabels(g), s, p, o, env, callees, fuel, c);
    var out := Eval(a.cond, env, c.trace, o, fuel);
    if out.Done? {
      EntryKept(g, s, env, callees, c, g, s, d.(pc := |g.code|));
      var m, e;
      if out.val != 0 {
        m, e := SimThen(a, g, s, p, o, env, callees, fuel, d);
      } else {
        m, e := SimElse(a, g, s, p, o, env, callees, fuel, d);
      }
      n, d := SimulatedThen(a, Eval(a, env, c.trace, o, fuel), g, VisitIfElse(a, g, s), p, o, fuel, c, n, d, m, e);
    }
  }

  /** What is simulated from a later state is simulated from the start. */
  lemma SimulatedThen(a: Ast, out: Outcome, g: Gen, r: Low, p: Prog, o: Oracle, fuel: nat, c: Cfg, n: nat, d: Cfg, m: nat, e: Cfg)
    returns (k: nat, f: Cfg)
    requires Run(p, o, c, n) == Some(d) && Frame(c.store, d.store, |g.vars|) && Simulated(a, out, g, r, p, o, fuel, d, m, e)
    ensures Simulated(a, out, g, r, p, o, fuel, c, k, f)
  {
    hide Run;
    RunThen(p, o, c, n, d, m, e);
    k, f := n + m, e;
  }

  lemma {:induction false} SimThen(a: Ast, g: Gen, s: Scope, p: Prog, o: Oracle, env: Env, callees: set<string>,
                                   fuel: nat, b: Cfg) returns (n: nat, d: Cfg)
    requires a.IfElse? && Fragment(a) && Scoped(a, env.Keys, callees)
    requires Entry(g, s, env, callees, b.(pc := |g.code|)) && Hosts(p, g, VisitIfElse(a, g, s).g)
    requires var x := IfParts(a, g, s).0; b.pc == |x.g.code| && x.v in b.store && b.store[x.v] != 0
    ensures Simulated(a, Eval(a.thn, env, b.trace, o, fuel), g, VisitIfElse(a, g, s), p, o, fuel, b, n, d)
    decreases fuel, a, 1
  {
    hide Run, Step, FindLabel, Hosts, Extends, EnvRel, ScopeOk, ScopeExt, Frame, VisitIfElse, BeginElse, Branch, Eval, Visit;
    var k, r := |g.labels|, VisitIfElse(a, g, s);
    var (x, y, z) := IfParts(a, g, s);
    var g1 := Branch(x, k, k + 2);
    IfHosts(a, g, s, p);
    IfSites(a, g, s, p);
    IfScopes(a, g, s);
    RunNone(p, o, b);
    BranchSteps(x, k, k + 2, p, o, b, 0, b, |g1.code| - 1);
    var e := b.(pc := |g1.code|);
    FrameSelf(b.store, |g.vars|);
    EntryKept(g, s, env, callees, b.(pc := |g.code|), g1, x.s, e);
    n, d := SimNode(a.thn, g1, x.s, p, o, env, callees, fuel, e);
    RunThen(p, o, b, 2, e, n, d);
    n := 2 + n;
    if Eval(a.thn, env, b.trace, o, fuel).Done? {
      JoinSteps(|y.g.code|, y.v, r.v, k + 1, p, o, b, n, d, |r.g.code| - 1);
      FrameThen(b.store, e.store, d.store, |g.vars|, |g1.vars|);
      FrameWrite(b.store, d.store, |g.vars|, r.v, d.store[y.v]);
      n, d := n + 3, Cfg(|r.g.code|, d.store[r.v := d.store[y.v]], d.trace);
    }
  }

  lemma {:induction false} SimElse(a: Ast, g: Gen, s: Scope, p: Prog, o: Oracle, env: Env, callees: set<string>,
                                   fuel: nat, b: Cfg) returns (n: nat, d: Cfg)
    requires a.IfElse? && Fragment(a) && Scoped(a, env.Keys, callees)
    requires Entry(g, s, env, callees, b.(pc := |g.code|)) && Hosts(p, g, VisitIfElse(a, g, s).g)
    requires var x := IfParts(a, g, s).0; b.pc == |x.g.code| && x.v in b.store && b.store[x.v] == 0
    ensures Simulated(a, Eval(a.els, env, b.trace, o, fuel), g, VisitIfElse(a, g, s), p, o, fuel, b, n, d)
    decreases fuel, a, 1
  {
    hide Run, Step, FindLabel, Hosts, Extends, EnvRel, ScopeOk, ScopeExt, Frame, VisitIfElse, BeginElse, Branch, Eval, Visit;
    var k, r := |g.labels|, VisitIfElse(a, g, s);
    var (x, y, z) := IfParts(a, g, s);
    var g2 := BeginElse(y, k);
    IfHosts(a, g, s, p);
    IfSites(a, g, s, p);
    IfScopes(a, g, s);
    RunNone(p, o, b);
    BranchSteps(x, k, k + 2, p, o, b, 0, b, |g2.code| - 1);
    var e := b.(pc := |g2.code|);
    FrameSelf(b.store, |g.vars|);
    EntryKept(g, s, env, callees, b.(pc := |g.code|), g2, y.s, e);
    n, d := SimNode(a.els, g2, y.s, p, o, env, callees, fuel, e);
    RunThen(p, o, b, 2, e, n, d);
    n := 2 + n;
    if Eval(a.els, env, b.trace, o, fuel).Done? {
      JoinSteps(|z.g.code|, z.v, r.v, k + 1, p, o, b, n, d, |r.g.code| - 1);
      FrameThen(b.store, e.store, d.store, |g.vars|, |g2.vars|);
      FrameWrite(b.store, d.store, |g.vars|, r.v, d.store[z.v]);
      n, d := n + 3, Cfg(|r.g.code|, d.store[r.v := d.store[z.v]], d.trace);
    }
  }

  /** Both stretches of an `if` without `else` have their labels to themselves. */
  lemma IfThenPlacesNone(a: Ast, g: Gen, s: Scope)
    requires a.IfThen?
    ensures var k := |g.labels|;
            var (x, y) := IfThenParts(a, g, s);
            var g1, h := Branch(x, k, k + 1), VisitIfThen(a, g, s).g;
            && PlacesNone(x.g, h, k + 2, |x.g.labels|)
            && PlacesNone(g, g1, |g1.labels|, |y.g.labels|) && PlacesNone(y.g, h, |g1.labels|, |y.g.labels|)
  {
    hide Visit, PlacesNone, Extends;
    var k := |g.labels|;
    var (x, y) := IfThenParts(a, g, s);
    var g0, g1, h := AddThenLabels(g), Branch(x, k, k + 1), VisitIfThen(a, g, s).g;
    var m, n := |x.g.labels|, |y.g.labels|;
    IfThenSizes(a, g, s);
    BranchPlacesNone(x, k, k + 1, k + 2, m);
    VisitPlacesNone(a.thn, g1, x.s, k + 2, m);
    EndPlacesNone(y, k + 1, k, k + 2, m);
    NoneThen(x.g, g1, y.g, k + 2, m);
    NoneThen(x.g, y.g, h, k + 2, m);
    VisitPlacesNone(a.cond, g0, s, m, n);
    NoneBefore(g, g0, x.g, m, n);
    BranchPlacesNone(x, k, k + 1, m, n);
    NoneThen(g, x.g, g1, m, n);
    EndPlacesNone(y, k + 1, k, m, n);
  }

  lemma IfThenHosts(a: Ast, g: Gen, s: Scope, p: Prog)
    requires a.IfThen? && Hosts(p, g, VisitIfThen(a, g, s).g)
    ensures var k := |g.labels|;
            var (x, y) := IfThenParts(a, g, s);
            Hosts(p, AddThenLabels(g), x.g) && Hosts(p, Branch(x, k, k + 1), y.g)
  {
    hide Run, Step, FindLabel, PlacesNone, Visit;
    var k := |g.labels|;
    var (x, y) := IfThenParts(a, g, s);
    var g0, g1, h := AddThenLabels(g), Branch(x, k, k + 1), VisitIfThen(a, g, s).g;
    IfThenExtends(a, g, s);
    VisitExtends(a.cond, g0, s);
    VisitExtends(a.thn, g1, x.s);
    ExtendsTrans(x.g, y.g, h);
    ExtendsTrans(g, x.g, g1);
    IfThenPlacesNone(a, g, s);
    NoneSelf(g, g0, k + 2, |x.g.labels|);
    HostsPart(p, g, g0, x.g, h);
    HostsPart(p, g, g1, y.g, h);
  }

  lemma NoneSelf(g: Gen, g0: Gen, lo: int, hi: int)
    requires g0.code == g.code
    ensures PlacesNone(g, g0, lo, hi)
  {
  }

  /** Where the code of an `if` without `else` has its labels and jumps: the end label is nowhere. */
  lemma IfThenSites(a: Ast, g: Gen, s: Scope, p: Prog)
    requires a.IfThen? && Hosts(p, g, VisitIfThen(a, g, s).g)
    ensures var k := |g.labels|;
            var (x, y) := IfThenParts(a, g, s);
            var g1, r := Branch(x, k, k + 1), VisitIfThen(a, g, s);
            && g1.code <= p.code && |g.vars| <= |x.g.vars| == |g1.vars| <= |y.g.vars|
            && |x.g.code| + 2 == |g1.code| <= |y.g.code| && |y.g.code| + 2 == |r.g.code| <= |p.code|
            && p.code[|x.g.code|] == CondJump(x.v, k, k + 1) && p.code[|y.g.code|] == Jump(k + 1)
            && FindLabel(p.code, k) == Some(|g1.code| - 1) && FindLabel(p.code, k + 1) == None
  {
    hide Run, Step, FindLabel, Visit, Placed, Places;
    var k := |g.labels|;
    var (x, y) := IfThenParts(a, g, s);
    var g1, h := Branch(x, k, k + 1), VisitIfThen(a, g, s).g;
    IfThenExtends(a, g, s);
    VisitExtends(a.thn, g1, x.s);
    ExtendsTrans(x.g, y.g, h);
    ExtendsTrans(g1, y.g, h);
    assert p.code[|x.g.code|] == g1.code[|x.g.code|] && p.code[|y.g.code|] == h.code[|y.g.code|];
    IfThenPlaces(a, g, s, k + 1);
    HostedNever(p, g, h, k + 1);
    ThenFirst(a, g, s, p);
    HostedFirst(p, g, h, |g1.code| - 1, k);
  }

  /** The then-label is placed for the first time right behind the condition. */
  lemma ThenFirst(a: Ast, g: Gen, s: Scope, p: Prog)
    requires a.IfThen? && Hosts(p, g, VisitIfThen(a, g, s).g)
    ensures var k := |g.labels|;
            var q := |IfThenParts(a, g, s).0.g.code| + 1;
            var h := VisitIfThen(a, g, s).g;
            |g.code| < q < |h.code| && h.code[q] == Label(k) && Placed(h.code[..q], k) == 0
  {
    hide FindLabel, Visit, Placed;
    var k := |g.labels|;
    var (x, y) := IfThenParts(a, g, s);
    var g0, g1, h := AddThenLabels(g), Branch(x, k, k + 1), VisitIfThen(a, g, s).g;
    IfThenExtends(a, g, s);
    VisitExtends(a.cond, g0, s);
    VisitExtends(a.thn, g1, x.s);
    assert g1.code <= y.g.code <= h.code;
    IfThenPlaces(a, g, s, k);
    assert Between(g, k, h);
    VisitPlaces(a.cond, g0, s, k);
    PlacedEmit(x.g, CondJump(x.v, k, k + 1), k);
    assert h.code[|x.g.code| + 1] == g1.code[|x.g.code| + 1];
    assert h.code[..|x.g.code| + 1] == g1.code[..|x.g.code| + 1] == Emit(x.g, CondJump(x.v, k, k + 1)).code;
  }

  /** What an `if` without `else` evaluates to. */
  lemma EvalIfThen(a: Ast, env: Env, tr: Trace, o: Oracle, fuel: nat)
    requires a.IfThen?
    ensures var x := Eval(a.cond, env, tr, o, fuel);
            var y := if x.Done? && x.val != 0 then Eval(a.thn, env, x.trace, o, fuel) else x;
            Eval(a, env, tr, o, fuel) == if y.Done? then Elseless(y.trace) else y
  {
  }

  /** An `if` without `else` goes wrong in either case: the code gets stuck with the calls made by then. */
  lemma {:induction false} SimIfThen(a: Ast, g: Gen, s: Scope, p: Prog, o: Oracle, env: Env, callees: set<string>,
                                     fuel: nat, c: Cfg) returns (n: nat, d: Cfg)
    requires a.IfThen? && Fragment(a) && Scoped(a, env.Keys, callees)
    requires Entry(g, s, env, callees, c) && Hosts(p, g, VisitIfThen(a, g, s).g)
    ensures Simulated(a, Eval(a, env, c.trace, o, fuel), g, VisitIfThen(a, g, s), p, o, fuel, c, n, d)
    decreases fuel, a, 2
  {
    hide Run, Step, FindLabel, Hosts, Extends, EnvRel, ScopeOk, ScopeExt, Frame, VisitIfThen, Branch, Visit, Eval;
    var (x, y) := IfThenParts(a, g, s);
    EvalIfThen(a, env, c.trace, o, fuel);
    IfThenHosts(a, g, s, p);
    IfThenSites(a, g, s, p);
    n, d := SimNode(a.cond, AddThenLabels(g), s, p, o, env, callees, fuel, c);
    var out := Eval(a.cond, env, c.trace, o, fuel);
    if out.Done? {
      if out.val == 0 {
        NowhereToGo(p, o, d);
      } else {
        EntryKept(g, s, env, callees, c, g, s, d.(pc := |g.code|));
        var m, e := SimTaken(a, g, s, p, o, env, callees, fuel, d);
        RunThen(p, o, c, n, d, m, e);
        n, d := n + m, e;
      }
    }
  }

  /** The branch taken, and the jump behind it. */
  lemma {:induction false} SimTaken(a: Ast, g: Gen, s: Scope, p: Prog, o: Oracle, env: Env, callees: set<string>,
                                    fuel: nat, b: Cfg) returns (n: nat, d: Cfg)
    requires a.IfThen? && Fragment(a) && Scoped(a, env.Keys, callees)
    requires Entry(g, s, env, callees, b.(pc := |g.code|)) && Hosts(p, g, VisitIfThen(a, g, s).g)
    requires var x := IfThenParts(a, g, s).0; b.pc == |x.g.code| && x.v in b.store && b.store[x.v] != 0
    ensures var out := Eval(a.thn, env, b.trace, o, fuel);
            Cut(if out.Done? then Elseless(out.trace) else out, |VisitIfThen(a, g, s).g.code|, p, o, fuel, b, n, d)
    decreases fuel, a, 1
  {
    hide Run, Step, FindLabel, Hosts, Extends, EnvRel, ScopeOk, ScopeExt, Frame, VisitIfThen, Branch, Visit, Eval;
    var k := |g.labels|;
    var (x, y) := IfThenParts(a, g, s);
    var g1 := Branch(x, k, k + 1);
    IfThenHosts(a, g, s, p);
    IfThenSites(a, g, s, p);
    IfThenScopes(a, g, s);
    RunNone(p, o, b);
    BranchSteps(x, k, k + 1, p, o, b, 0, b, |g1.code| - 1);
    var e := b.(pc := |g1.code|);
    FrameSelf(b.store, |g.vars|);
    EntryKept(g, s, env, callees, b.(pc := |g.code|), g1, x.s, e);
    n, d := SimNode(a.thn, g1, x.s, p, o, env, callees, fuel, e);
    RunThen(p, o, b, 2, e, n, d);
    n := 2 + n;
    if Eval(a.thn, env, b.trace, o, fuel).Done? {
      NowhereToGo(p, o, d);
    }
  }

  lemma IfThenScopes(a: Ast, g: Gen, s: Scope)
    requires a.IfThen? && Fragment(a) && ScopeOk(s, g.vars)
    ensures var x := IfThenParts(a, g, s).0; ScopeExt(s, x.s) && ScopeOk(x.s, Branch(x, |g.labels|, |g.labels| + 1).vars)
  {
    IfThenScope(a, g, s);
  }

  lemma WhilePlacesNone(a: Ast, g: Gen, s: Scope)
    requires a.While?
    ensures var k := |g.labels|;
            var (x, y) := WhileParts(a, g, s);
            var g0, g1, h := BeginWhile(g), Branch(x, k + 1, k + 2), VisitWhile(a, g, s).g;
            && PlacesNone(g, g0, |g0.labels|, |x.g.labels|) && PlacesNone(x.g, h, |g0.labels|, |x.g.labels|)
            && PlacesNone(g, g1, |g1.labels|, |y.g.labels|) && PlacesNone(y.g, h, |g1.labels|, |y.g.labels|)
  {
    hide Visit, PlacesNone, Extends;
    var k := |g.labels|;
    var (x, y) := WhileParts(a, g, s);
    var g0, g1, h := BeginWhile(g), Branch(x, k + 1, k + 2), VisitWhile(a, g, s).g;
    var m, n := |x.g.labels|, |y.g.labels|;
    WhileSizes(a, g, s);
    BeginWhilePlacesNone(g, k + 3, m);
    VisitPlacesNone(a.body, g1, x.s, k + 3, m);
    BranchPlacesNone(x, k + 1, k + 2, k + 3, m);
    EndPlacesNone(y, k, k + 2, k + 3, m);
    NoneThen(x.g, g1, y.g, k + 3, m);
    NoneThen(x.g, y.g, h, k + 3, m);
    BeginWhilePlacesNone(g, m, n);
    VisitPlacesNone(a.cond, g0, s, m, n);
    BranchPlacesNone(x, k + 1, k + 2, m, n);
    EndPlacesNone(y, k, k + 2, m, n);
    NoneThen(g, g0, x.g, m, n);
    NoneThen(g, x.g, g1, m, n);
  }

  /** The stretches of a `while`'s code, and where its labels and jumps are. */
  lemma WhileHosts(a: Ast, g: Gen, s: Scope, p: Prog)
    requires a.While? && Hosts(p, g, VisitWhile(a, g, s).g)
    ensures var k := |g.labels|;
            var (x, y) := WhileParts(a, g, s);
            Hosts(p, BeginWhile(g), x.g) && Hosts(p, Branch(x, k + 1, k + 2), y.g)
  {
    hide Run, Step, FindLabel;
    var k := |g.labels|;
    var (x, y) := WhileParts(a, g, s);
    var g0, g1, h := BeginWhile(g), Branch(x, k + 1, k + 2), VisitWhile(a, g, s).g;
    WhileExtends(a, g, s);
    VisitExtends(a.cond, g0, s);
    VisitExtends(a.body, g1, x.s);
    ExtendsTrans(x.g, y.g, h);
    ExtendsTrans(g, x.g, g1);
    WhilePlacesNone(a, g, s);
    HostsPart(p, g, g0, x.g, h);
    HostsPart(p, g, g1, y.g, h);
  }

  /** Its labels lead to its start, its body and its end. */
  predicate WhileFound(a: Ast, g: Gen, s: Scope, p: Prog)
    requires a.While?
  {
    var k := |g.labels|;
    var (x, y) := WhileParts(a, g, s);
    && FindLabel(p.code, k) == Some(|g.code|)
    && FindLabel(p.code, k + 1) == Some(|Branch(x, k + 1, k + 2).code| - 1)
    && FindLabel(p.code, k + 2) == Some(|VisitWhile(a, g, s).g.code| - 1)
  }

  lemma WhileLabels(a: Ast, g: Gen, s: Scope, p: Prog)
    requires a.While? && Hosts(p, g, VisitWhile(a, g, s).g)
    ensures WhileFound(a, g, s, p)
  {
    hide Run, Step, FindLabel, Visit, Hosts, Places, Placed, Branch, BeginWhile, EndWhile, PlacesOwn;
    var k := |g.labels|;
    var (x, y) := WhileParts(a, g, s);
    var g0, g1, h := BeginWhile(g), Branch(x, k + 1, k + 2), VisitWhile(a, g, s).g;
    WhileExtends(a, g, s);
    VisitExtends(a.cond, g0, s);
    VisitExtends(a.body, g1, x.s);
    ExtendsTrans(x.g, y.g, h);
    ExtendsTrans(g1, y.g, h);
    WhilePlacesOwn(a, g, s, k);
    WhilePlacesOwn(a, g, s, k + 1);
    WhilePlacesOwn(a, g, s, k + 2);
    BranchShape(x, k + 1, k + 2);
    WhileShape(g, y, k);
    assert h.code[|g.code|] == x.g.code[|g.code|] == g0.code[|g.code|];
    assert h.code[|g1.code| - 1] == g1.code[|g1.code| - 1];
    HostedLabel(p, g, h, |g.code|, k);
    HostedLabel(p, g, h, |g1.code| - 1, k + 1);
    HostedLabel(p, g, h, |h.code| - 1, k + 2);
  }

  lemma WhileSites(a: Ast, g: Gen, s: Scope, p: Prog)
    requires a.While? && Hosts(p, g, VisitWhile(a, g, s).g)
    ensures var k := |g.labels|;
            var (x, y) := WhileParts(a, g, s);
            var g0, g1, r := BeginWhile(g), Branch(x, k + 1, k + 2), VisitWhile(a, g, s);
            && g1.code <= p.code && |g.vars| == |g0.vars| <= |x.g.vars| == |g1.vars| <= |y.g.vars|
            && |g.code| + 1 == |g0.code| <= |x.g.code| && |x.g.code| + 2 == |g1.code| <= |y.g.code|
            && |y.g.code| + 2 == |r.g.code| <= |p.code|
            && p.code[|g.code|] == Label(k) && p.code[|y.g.code|] == Jump(k) && WhileFound(a, g, s, p)
  {
    hide Run, Step, FindLabel, Visit, Placed, Branch, BeginWhile, EndWhile, WhileFound;
    var k := |g.labels|;
    var (x, y) := WhileParts(a, g, s);
    BranchShape(x, k + 1, k + 2);
    WhileShape(g, y, k);
    var g0, g1, h := BeginWhile(g), Branch(x, k + 1, k + 2), VisitWhile(a, g, s).g;
    WhileExtends(a, g, s);
    VisitExtends(a.cond, g0, s);
    VisitExtends(a.body, g1, x.s);
    ExtendsTrans(x.g, y.g, h);
    ExtendsTrans(g1, y.g, h);
    assert h.code[|g.code|] == x.g.code[|g.code|] == g0.code[|g.code|] by {
      assert g0.code <= x.g.code <= h.code;
    }
    WhileLabels(a, g, s, p);
    assert p.code[|y.g.code|] == h.code[|y.g.code|];
  }

  lemma {:induction false} SimWhile(a: Ast, g: Gen, s: Scope, p: Prog, o: Oracle, env: Env, callees: set<string>,
                                    fuel: nat, c: Cfg) returns (n: nat, d: Cfg)
    requires a.While? && Fragment(a) && Scoped(a, env.Keys, callees)
    requires Entry(g, s, env, callees, c) && Hosts(p, g, VisitWhile(a, g, s).g)
    ensures Simulated(a, Eval(a, env, c.trace, o, fuel), g, VisitWhile(a, g, s), p, o, fuel, c, n, d)
    decreases fuel, a, 2
  {
    hide Run, Step, FindLabel, Hosts, Extends, EnvRel, ScopeOk, ScopeExt, Frame, VisitWhile, Branch, BeginWhile, Visit;
    var k, r := |g.labels|, VisitWhile(a, g, s);
    var (x, y) := WhileParts(a, g, s);
    var g0 := BeginWhile(g);
    WhileSites(a, g, s, p);
    n, d := 0, c;
    RunNone(p, o, c);
    if fuel > 0 {
      LabelStep(p, o, c);
      var c0 := c.(pc := |g0.code|);
      WhileHosts(a, g, s, p);
      WhileScopes(a, g, s, env, callees, c, c0);
      n, d := SimNode(a.cond, g0, s, p, o, env, callees, fuel, c0);
      RunThen(p, o, c, 1, c0, n, d);
      n := 1 + n;
      var out := Eval(a.cond, env, c.trace, o, fuel);
      if out.Done? {
        if out.val == 0 {
          BranchSteps(x, k + 1, k + 2, p, o, c, n, d, |r.g.code| - 1);
          n, d := n + 2, d.(pc := |r.g.code|);
        } else {
          EntryKept(g, s, env, callees, c, g, s, d.(pc := |g.code|));
          var m, e := SimIteration(a, g, s, p, o, env, callees, fuel, d);
          n, d := SimulatedThen(a, Eval(a, env, c.trace, o, fuel), g, r, p, o, fuel, c, n, d, m, e);
        }
      }
    }
  }

  /** The scopes in which the parts of a `while` are lowered. */
  lemma WhileScopes(a: Ast, g: Gen, s: Scope, env: Env, callees: set<string>, c: Cfg, c0: Cfg)
    requires a.While? && Fragment(a) && Entry(g, s, env, callees, c) && c0 == c.(pc := |BeginWhile(g).code|)
    ensures var k := |g.labels|;
            var x := WhileParts(a, g, s).0;
            Entry(BeginWhile(g), s, env, callees, c0) && ScopeExt(s, x.s) && ScopeOk(x.s, Branch(x, k + 1, k + 2).vars)
  {
    WhileScope(a, g, s);
  }

  /** The body, the jump back, and the iterations that follow. */
  lemma {:induction false} SimIteration(a: Ast, g: Gen, s: Scope, p: Prog, o: Oracle, env: Env, callees: set<string>,
                                        fuel: nat, b: Cfg) returns (n: nat, d: Cfg)
    requires fuel > 0 && a.While? && Fragment(a) && Scoped(a, env.Keys, callees)
    requires Entry(g, s, env, callees, b.(pc := |g.code|)) && Hosts(p, g, VisitWhile(a, g, s).g)
    requires var x := WhileParts(a, g, s).0; b.pc == |x.g.code| && x.v in b.store && b.store[x.v] != 0
    ensures var body := Eval(a.body, env, b.trace, o, fuel);
            var out := if body.Done? then Eval(a, env, body.trace, o, fuel - 1) else body;
            Simulated(a, out, g, VisitWhile(a, g, s), p, o, fuel, b, n, d)
    decreases fuel, a, 1
  {
    hide Run, Step, FindLabel, Hosts, Extends, EnvRel, ScopeOk, ScopeExt, Frame, VisitWhile, Branch, BeginWhile, Visit;
    var k := |g.labels|;
    var (x, y) := WhileParts(a, g, s);
    var g1 := Branch(x, k + 1, k + 2);
    WhileSites(a, g, s, p);
    WhileHosts(a, g, s, p);
    WhileScopes(a, g, s, env, callees, b.(pc := |g.code|), b.(pc := |BeginWhile(g).code|));
    RunNone(p, o, b);
    BranchSteps(x, k + 1, k + 2, p, o, b, 0, b, |g1.code| - 1);
    var e := b.(pc := |g1.code|);
    FrameSelf(b.store, |g.vars|);
    EntryKept(g, s, env, callees, b.(pc := |g.code|), g1, x.s, e);
    n, d := SimNode(a.body, g1, x.s, p, o, env, callees, fuel, e);
    RunThen(p, o, b, 2, e, n, d);
    n := 2 + n;
    if Eval(a.body, env, b.trace, o, fuel).Done? {
      FrameThen(b.store, e.store, d.store, |g.vars|, |g1.vars|);
      EntryKept(g, s, env, callees, b.(pc := |g.code|), g, s, d.(pc := |g.code|));
      var m, f := SimAgain(a, g, s, p, o, env, callees, fuel, d);
      n, d := SimulatedThen(a, Eval(a, env, d.trace, o, fuel - 1), g, VisitWhile(a, g, s), p, o, fuel, b, n, d, m, f);
    }
  }

  /** The jump back to the start label, and the remaining iterations. */
  lemma {:induction false} SimAgain(a: Ast, g: Gen, s: Scope, p: Prog, o: Oracle, env: Env, callees: set<string>,
                                    fuel: nat, b: Cfg) returns (n: nat, d: Cfg)
    requires fuel > 0 && a.While? && Fragment(a) && Scoped(a, env.Keys, callees)
    requires Entry(g, s, env, callees, b.(pc := |g.code|)) && Hosts(p, g, VisitWhile(a, g, s).g)
    requires b.pc == |WhileParts(a, g, s).1.g.code|
    ensures Simulated(a, Eval(a, env, b.trace, o, fuel - 1), g, VisitWhile(a, g, s), p, o, fuel, b, n, d)
    decreases fuel, a, 0
  {
    hide Run, Step, FindLabel, Hosts, Extends, EnvRel, ScopeOk, ScopeExt, Frame, VisitWhile, Branch, BeginWhile, Eval;
    WhileSites(a, g, s, p);
    JumpStep(p, o, b, |g.code|);
    var e := b.(pc := |g.code|);
    FrameSelf(b.store, |g.vars|);
    n, d := SimNode(a, g, s, p, o, env, callees, fuel - 1, e);
    RunThen(p, o, b, 1, e, n, d);
    n := 1 + n;
    if Eval(a, env, b.trace, o, fuel - 1).Done? {
      FrameThen(b.store, e.store, d.store, |g.vars|, |g.vars|);
    }
  }
}
