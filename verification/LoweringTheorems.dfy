/**
 Whole programs: the generated IR and the source make the same calls, step by step and in the limit.
*/
module LoweringTheorems {
  import opened Words
  import opened Syntax
  import opened SourceSemantics
  import opened Ir
  import opened Lowering
  import opened LoweringShape
  import opened ValueTypes
  import opened LoweringMeaning
  import opened ClosedControlFlow

  const START: Cfg := Cfg(0, map[], [])

  function TraceOf(out: Outcome): Trace {
    match out
    case Done(_, tr) => tr
    case Timeout(tr) => tr
    case Elseless(tr) => tr
    case Wrong => []
  }

  lemma ProgramHosts(root: Ast)
    requires WellScoped(root)
    ensures Hosts(Program(root), RootGen(), VisitRoot(root).g)
    ensures Entry(RootGen(), ROOT_SCOPE, map[], ROOT_CALLEES, START)
  {
    var p, r := Program(root), VisitRoot(root);
    VisitExtends(root, RootGen(), ROOT_SCOPE);
    forall l | Between(RootGen(), l, r.g)
      ensures Placed([], l) == 0 && Placed(p.code, l) == Placed(r.g.code, l)
    {
      PlacedEmit(r.g, CallFn(0, [r.v], UNIT_VAR), l);
      PlacedEmit(r.g, CallFn(1, [r.v], UNIT_VAR), l);
    }
  }

  /** What the run of the generated program must do, given what the source does. */
  ghost predicate ProgramSimulated(root: Ast, out: Outcome, o: Oracle, fuel: nat, n: nat, d: Cfg) {
    var p := Program(root);
    match out
    case Wrong => false
    case Timeout(tr) => Run(p, o, START, n) == Some(d) && d.trace == tr && !Halted(p, d) && n >= fuel
    case Elseless(tr) => Run(p, o, START, n) == Some(d) && d.trace == tr && !Halted(p, d) && Step(p, o, d) == None
    case Done(_, tr) => Run(p, o, START, n) == Some(d) && d.trace == tr && Halted(p, d)
  }

  /**
   Lowering preserves meaning.  Whatever the oracle answers: if the source finishes, the IR reaches its
   end having made the same calls with the same arguments and results; if some loop of the source has
   gone round `fuel` times, the IR has taken at least as many steps, is still running, and has made the
   same calls so far; if the source comes to the end of an `if` without `else`, the IR is stuck after the
   same calls.  The source never goes wrong.
  */
  lemma LoweringPreservesMeaning(root: Ast, o: Oracle, fuel: nat) returns (n: nat, d: Cfg)
    requires WellScoped(root)
    ensures ProgramSimulated(root, RunProgram(root, o, fuel), o, fuel, n, d)
  {
    hide Run, Step, FindLabel, Hosts, Entry, Scoped, Frame, RootType;
    RootTypeIs(root);
    var p, r := Program(root), VisitRoot(root);
    ProgramHosts(root);
    var none: Env := map[];
    assert none.Keys == {};
    n, d := SimNode(root, RootGen(), ROOT_SCOPE, p, o, none, ROOT_CALLEES, fuel, START);
    var out := Eval(root, none, [], o, fuel);
    if out.Done? {
      if IsValue(root) {
        RootValue(root);
        n, d := PrintStep(root, o, out.val, n, d);
      } else {
        VisitUnit(root, RootGen(), ROOT_SCOPE);
      }
    }
  }

  lemma RootValue(root: Ast)
    requires WellScoped(root) && IsValue(root)
    ensures 2 <= VisitRoot(root).v < |VisitRoot(root).g.vars|
  {
    VisitValue(root, RootGen(), ROOT_SCOPE, {}, ROOT_CALLEES);
  }

  /** The call that prints the program's value. */
  lemma PrintStep(root: Ast, o: Oracle, val: Word, m: nat, b: Cfg) returns (n: nat, d: Cfg)
    requires var r := VisitRoot(root);
             r.v > 0 && b.pc == |r.g.code| && r.v in b.store && b.store[r.v] == val && FinalType(r) == RootType(root)
    requires Run(Program(root), o, START, m) == Some(b)
    ensures var p := Program(root);
            var ty := RootType(root);
            && Run(p, o, START, n) == Some(d) && Halted(p, d)
            && d.trace == (if PrintCallee(ty) == "" then b.trace
                           else b.trace + [Event(PrintCallee(ty), [val], o(b.trace, PrintCallee(ty), [val]))])
  {
    hide FindLabel, RootType;
    var r, p := VisitRoot(root), Program(root);
    n, d := m, b;
    if PrintCallee(RootType(root)) != "" {
      VisitExtends(root, RootGen(), ROOT_SCOPE);
      var fn := if RootType(root) == TInt then 0 else 1;
      assert p.code[|r.g.code|] == CallFn(fn, [r.v], UNIT_VAR);
      assert p.vars[fn] == ROOT_VARS[fn];
      assert ReadAll([r.v], b.store) == [val];
      RunOne(p, o, START, m, b);
      n, d := m + 1, Step(p, o, b).value;
    }
  }

  /**
   The names bound at the root are variables 0 and 1, and the value printed must be a later one than 0: the program
   `print_int` prints nothing, and `print_bool` prints variable 1, which no instruction writes.
  */
  lemma FunctionsAsValues(ty: Ty)
    ensures Generate(Identifier("print_int", ty)).code == []
    ensures Generate(Identifier("print_bool", ty)).code == [CallFn(1, [1], UNIT_VAR)]
  {
  }

  /** Once halted, a run stays where it is. */
  lemma HaltedStays(p: Prog, o: Oracle, c: Cfg, m: nat, d: Cfg, n: nat)
    requires Run(p, o, c, m) == Some(d) && Halted(p, d) && m <= n
    ensures Run(p, o, c, n) == Some(d)
  {
    RunSplit(p, o, c, m, n - m);
  }

  /** A shorter run does not get stuck either, and its trace is a prefix. */
  lemma ShorterRun(p: Prog, o: Oracle, c: Cfg, m: nat, n: nat, d: Cfg)
    requires Run(p, o, c, n) == Some(d) && m <= n
    ensures Run(p, o, c, m).Some? && Run(p, o, c, m).value.trace <= d.trace
  {
    RunSplit(p, o, c, m, n - m);
    TraceGrows(p, o, Run(p, o, c, m).value, n - m);
  }

  /**
   The converse: at every step count n, the IR is not stuck (no variable is read before it is written, no label is
   missing) unless the source comes to the end of an `if` without `else`; its calls so far are the source's first
   calls; and if it has halted, the source finishes with exactly the same calls.
  */
  lemma IrHasOnlySourceBehaviour(root: Ast, o: Oracle, n: nat)
    requires WellScoped(root)
    ensures var out := RunProgram(root, o, n);
            match Run(Program(root), o, START, n)
            case Some(d) =>
              d.trace <= TraceOf(out) && (Halted(Program(root), d) ==> out.Done? && out.trace == d.trace)
            case None => out.Elseless?
  {
    hide Run, RunProgram, Program, Step;
    var p := Program(root);
    var m, d := LoweringPreservesMeaning(root, o, n);
    if n <= m {
      ShorterRun(p, o, START, n, m, d);
      if Halted(p, Run(p, o, START, n).value) {
        HaltedStays(p, o, START, n, Run(p, o, START, n).value, m);
      }
    } else if Halted(p, d) {
      HaltedStays(p, o, START, m, d, n);
    } else {
      RunOne(p, o, START, m, d);
      RunSplit(p, o, START, m + 1, n - m - 1);
    }
  }

  ghost predicate SourceFinishes(root: Ast, o: Oracle, tr: Trace) {
    exists fuel: nat :: FinishesWithin(root, o, fuel, tr)
  }

  predicate FinishesWithin(root: Ast, o: Oracle, fuel: nat, tr: Trace) {
    var out := RunProgram(root, o, fuel);
    out.Done? && out.trace == tr
  }

  ghost predicate IrFinishes(root: Ast, o: Oracle, tr: Trace) {
    exists n: nat :: HaltsAt(root, o, n, tr)
  }

  predicate HaltsAt(root: Ast, o: Oracle, n: nat, tr: Trace) {
    var run := Run(Program(root), o, START, n);
    run.Some? && Halted(Program(root), run.value) && run.value.trace == tr
  }

  /** The generated program finishes with a given sequence of calls exactly when the source does. */
  lemma SameTermination(root: Ast, o: Oracle, tr: Trace)
    requires WellScoped(root)
    ensures SourceFinishes(root, o, tr) <==> IrFinishes(root, o, tr)
  {
    hide RunProgram, Run, Program;
    if SourceFinishes(root, o, tr) {
      var fuel: nat :| FinishesWithin(root, o, fuel, tr);
      var n, d := LoweringPreservesMeaning(root, o, fuel);
      assert HaltsAt(root, o, n, tr);
    }
    if IrFinishes(root, o, tr) {
      var n: nat :| HaltsAt(root, o, n, tr);
      IrHasOnlySourceBehaviour(root, o, n);
      assert FinishesWithin(root, o, n, tr);
    }
  }

  /** Execution inside a subtree's code leaves it only through its end. */
  lemma StaysInside(a: Ast, g: Gen, s: Scope, p: Prog, o: Oracle, c: Cfg)
    requires EveryIfHasElse(a) && Hosts(p, g, Visit(a, g, s).g)
    requires |g.code| <= c.pc < |Visit(a, g, s).g.code|
    ensures var next := Step(p, o, c);
            next.Some? ==> |g.code| <= next.value.pc <= |Visit(a, g, s).g.code|
  {
    hide Run, FindLabel, Visit;
    var h, i := Visit(a, g, s).g, p.code[c.pc];
    assert i == h.code[c.pc];
    VisitOwnJumps(a, g, s);
    forall t | t in Targets(i)
      ensures exists q: nat :: |g.code| <= q < |h.code| && FindLabel(p.code, t) == Some(q)
    {
      assert Between(g, t, h);
      VisitPlaces(a, g, s, t);
      var q := PlacedSomewhere(g.code, h.code, t);
      HostedLabel(p, g, h, q, t);
    }
  }

  /** The generated program cannot go on after these calls. */
  ghost predicate IrStuck(root: Ast, o: Oracle, tr: Trace) {
    exists n: nat :: StuckAt(root, o, n, tr)
  }

  predicate StuckAt(root: Ast, o: Oracle, n: nat, tr: Trace) {
    var p := Program(root);
    var run := Run(p, o, START, n);
    run.Some? && run.value.trace == tr && !Halted(p, run.value) && Step(p, o, run.value) == None
  }

  /** Evaluation comes to the end of an `if` without `else` after these calls. */
  ghost predicate SourceMeetsElseless(root: Ast, o: Oracle, tr: Trace) {
    exists fuel: nat :: RunProgram(root, o, fuel) == Elseless(tr)
  }

  /**
   The `if` without `else` as shipped (ir.c:571-587): the generated program gets stuck exactly when the source comes
   to the end of one, whether its branch was taken or not, and it has made the source's calls by then.
  */
  lemma StuckIffElseless(root: Ast, o: Oracle, tr: Trace)
    requires WellScoped(root)
    ensures IrStuck(root, o, tr) <==> SourceMeetsElseless(root, o, tr)
  {
    hide RunProgram, Run, Program, Step;
    if SourceMeetsElseless(root, o, tr) {
      var fuel: nat :| RunProgram(root, o, fuel) == Elseless(tr);
      var n, d := LoweringPreservesMeaning(root, o, fuel);
      assert StuckAt(root, o, n, tr);
    }
    if IrStuck(root, o, tr) {
      var n: nat :| StuckAt(root, o, n, tr);
      var p := Program(root);
      RunOne(p, o, START, n, Run(p, o, START, n).value);
      IrHasOnlySourceBehaviour(root, o, n + 1);
      var m, d := LoweringPreservesMeaning(root, o, n + 1);
      SameStuck(p, o, START, n, Run(p, o, START, n).value, m, d);
    }
  }

  /** `if true then 1` gets stuck at once. */
  lemma ElselessGetsStuck(o: Oracle)
    ensures var root := IfThen(Literal("true", TBool), Literal("1", TInt), TUnit);
            WellScoped(root) && IrStuck(root, o, [])
  {
    hide IrStuck;
    var root := IfThen(Literal("true", TBool), Literal("1", TInt), TUnit);
    assert RunProgram(root, o, 0) == Elseless([]);
    StuckIffElseless(root, o, []);
  }

  lemma SameStuck(p: Prog, o: Oracle, c: Cfg, m: nat, d: Cfg, n: nat, e: Cfg)
    requires Run(p, o, c, m) == Some(d) && !Halted(p, d) && Step(p, o, d) == None
    requires Run(p, o, c, n) == Some(e) && !Halted(p, e) && Step(p, o, e) == None
    ensures d == e
  {
    if m < n {
      RunSplit(p, o, c, m, n - m);
    } else if n < m {
      RunSplit(p, o, c, n, m - n);
    }
  }

  /** So a program whose ifs all have an else never gets stuck. */
  lemma NeverStuck(root: Ast, o: Oracle, n: nat)
    requires WellScoped(root) && EveryIfHasElse(root)
    ensures Run(Program(root), o, START, n).Some?
  {
    hide Run, Program;
    NoElseless(root, map[], [], o, n);
    IrHasOnlySourceBehaviour(root, o, n);
  }
}
