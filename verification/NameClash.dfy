/**
 When a call of the assembly lands in the program itself (codegen.c:366-399): labels and called functions share one
 space of names, and a label that has the name of a called function takes its calls.
*/
module NameClash {
  import opened Syntax
  import opened Ir
  import opened Lowering
  import opened Machine
  import opened Codegen
  import opened CodegenMeaning
  import opened LabelNames
  import opened CalledNames
  import opened CompilerTheorem
  import ClosedControlFlow

  /** Some name is both placed and called. */
  ghost predicate Clashes(asm: seq<X64>) {
    exists name: string, n: nat :: Def(name) in asm && CallX(name, n) in asm
  }

  lemma {:induction false} InAssembly(code: seq<Instr>, k: nat, vars: seq<IrVar>, labels: seq<string>, x: X64)
    requires AllAddressable(code, |vars|, |labels|) && k < |code| && x in InstrCode(code[k], vars, labels)
    ensures x in Assemble(code, vars, labels)
    decreases k
  {
    hide InstrCode, Addressable;
    if k > 0 {
      InAssembly(code[1..], k - 1, vars, labels, x);
    }
  }

  lemma {:induction false} FromAssembly(code: seq<Instr>, vars: seq<IrVar>, labels: seq<string>, x: X64) returns (k: nat)
    requires AllAddressable(code, |vars|, |labels|) && x in Assemble(code, vars, labels)
    ensures k < |code| && x in InstrCode(code[k], vars, labels)
    decreases |code|
  {
    hide InstrCode, Addressable;
    if x in InstrCode(code[0], vars, labels) {
      k := 0;
    } else {
      k := FromAssembly(code[1..], vars, labels, x);
      k := k + 1;
    }
  }

  lemma CalledHere(i: Instr, vars: seq<IrVar>, labels: seq<string>, name: string, n: nat)
    requires Addressable(i, |vars|, |labels|) && CallX(name, n) in InstrCode(i, vars, labels)
    ensures Calls(i, vars, name)
  {
    if i.CallFn? {
      IntrinsicStraight(vars[i.fn].name, i.args, i.dest, OffsetOf(i.dest) + 1);
      assert CallX(name, n) !in ArgMoves(i.args);
    }
  }

  lemma CallHere(i: Instr, vars: seq<IrVar>, labels: seq<string>, name: string)
    requires Ready(i, |vars|, |labels|) && Calls(i, vars, name)
    ensures CallX(name, |i.args|) in InstrCode(i, vars, labels)
  {
    hide Intrinsic, ArgMoves;
    var x := CallX(name, |i.args|);
    assert InstrCode(i, vars, labels) == Intrinsic(name, i.args, i.dest) + (ArgMoves(i.args) + [x, Mov(R(Rax), SlotFor(i.dest))]);
  }

  lemma {:induction false} PlacedAt(code: seq<Instr>, l: int) returns (k: nat)
    requires ClosedControlFlow.Placed(code, l) >= 1
    ensures k < |code| && code[k] == Label(l)
    decreases |code|
  {
    k := |code| - 1;
    if code[k] != Label(l) {
      k := PlacedAt(code[..k], l);
    }
  }

  /** Where every label is placed, the assembly is free of clashes exactly when no label has a called name. */
  lemma ClashesIff(root: Ast, labels: seq<string>)
    requires WellScoped(root) && EveryIfHasElse(root) && SixArgs(root) && |labels| == |Generate(root).labels|
    ensures AllAddressable(Generate(root).code, |Generate(root).vars|, |labels|)
    ensures Clashes(Assemble(Generate(root).code, Generate(root).vars, labels)) <==> !Uncalled(root, labels)
  {
    hide Generate, Assemble, WellScoped, SixArgs, EveryIfHasElse, ProgramCalls, Ready, Addressable, InstrCode, Calls;
    var code, vars := Generate(root).code, Generate(root).vars;
    ProgramReady(root);
    ProgramCallsNamed(root);
    var asm := Assemble(code, vars, labels);
    if Clashes(asm) {
      var name: string, n: nat :| Def(name) in asm && CallX(name, n) in asm;
      ClashIsCalled(root, labels, name, n);
    } else if !Uncalled(root, labels) {
      var l :| 0 <= l < |labels| && labels[l] in ProgramCalls(root);
      CalledIsClash(root, labels, l);
    }
  }

  lemma ClashIsCalled(root: Ast, labels: seq<string>, name: string, n: nat)
    requires WellScoped(root) && |labels| == |Generate(root).labels|
    requires AllAddressable(Generate(root).code, |Generate(root).vars|, |labels|)
    requires var asm := Assemble(Generate(root).code, Generate(root).vars, labels); Def(name) in asm && CallX(name, n) in asm
    ensures name in labels && name in ProgramCalls(root)
  {
    hide Generate, Assemble, WellScoped, ProgramCalls, InstrCode, Addressable;
    var code, vars := Generate(root).code, Generate(root).vars;
    ProgramCallsNamed(root);
    var k := FromAssembly(code, vars, labels, CallX(name, n));
    CalledHere(code[k], vars, labels, name, n);
    if name !in labels {
      var j := FromAssembly(code, vars, labels, Def(name));
      NotDefined(code[j], vars, labels, name);
    }
  }

  lemma CalledIsClash(root: Ast, labels: seq<string>, l: nat)
    requires WellScoped(root) && EveryIfHasElse(root) && |labels| == |Generate(root).labels|
    requires AllAddressable(Generate(root).code, |Generate(root).vars|, |labels|)
    requires AllReady(Generate(root).code, |Generate(root).vars|, |labels|)
    requires l < |labels| && labels[l] in ProgramCalls(root)
    ensures Clashes(Assemble(Generate(root).code, Generate(root).vars, labels))
  {
    hide Generate, Assemble, WellScoped, EveryIfHasElse, ProgramCalls, InstrCode, Addressable, Ready;
    var code, vars, name := Generate(root).code, Generate(root).vars, labels[l];
    ProgramCallsNamed(root);
    ClosedControlFlow.ProgramLabelsUnique(root);
    var j := PlacedAt(code, l);
    LabelHere(code[j], vars, labels, l);
    InAssembly(code, j, vars, labels, Def(name));
    var k :| 0 <= k < |code| && Calls(code[k], vars, name);
    CallHere(code[k], vars, labels, name);
    InAssembly(code, k, vars, labels, CallX(name, |code[k].args|));
  }

  lemma LabelHere(i: Instr, vars: seq<IrVar>, labels: seq<string>, l: nat)
    requires Addressable(i, |vars|, |labels|) && i == Label(l) && l < |labels|
    ensures Def(labels[l]) in InstrCode(i, vars, labels)
  {
  }

  /** `{ var end = 1; end(if true then 1 else 2) }` */
  function EndIsCalled(): Ast {
    var one, two := Literal("1", TInt), Literal("2", TInt);
    Block([VarExpr("end", one, "", TInt), Call("end", [IfElse(Literal("true", TBool), one, two, TInt)], TInt)], TInt)
  }

  lemma EndParts()
    ensures var es := EndIsCalled().stmts; es[1..] == [es[1]] && es[1..][1..] == [] && es[1].args[1..] == []
  {
  }

  /** The called name is declared in the block, so lowering accepts the program. */
  lemma EndScoped()
    ensures WellScoped(EndIsCalled())
  {
    EndParts();
    var es := EndIsCalled().stmts;
    var call, args := es[1], es[1].args;
    assert Syntax.Operand(args[0]) && Scoped(args[0], {"end"}, {});
    assert Operands(args[1..]) && ScopedAll(args[1..], {"end"}, {});
    assert Fragment(call) && Scoped(call, {"end"}, {});
    assert {} + Declared(es[0]) == {"end"};
    assert Statements(es[1..]) && ScopedStatements(es[1..], {"end"}, {});
  }

  lemma EndFits()
    ensures EveryIfHasElse(EndIsCalled()) && SixArgs(EndIsCalled())
  {
    EndParts();
    var es := EndIsCalled().stmts;
    var call, args := es[1], es[1].args;
    assert EveryIfHasElseIn(args[1..]) && SixArgsIn(args[1..]);
    assert EveryIfHasElse(call) && SixArgs(call);
    assert EveryIfHasElseIn(es[1..]) && SixArgsIn(es[1..]);
  }

  /** It has one `if`. */
  lemma EndUses(name: string)
    ensures Uses(EndIsCalled(), name) == InIf(name, true)
  {
    hide InIf, InWhile;
    EndParts();
    var es := EndIsCalled().stmts;
    var call, args := es[1], es[1].args;
    assert UsesIn(args[1..], name) == 0;
    assert Uses(args[0], name) == InIf(name, true);
    assert Uses(call, name) == Uses(args[0], name);
    assert UsesIn(es[1..], name) == Uses(call, name);
  }

  lemma EndCalled()
    ensures "end" in ProgramCalls(EndIsCalled())
  {
    EndParts();
    var es := EndIsCalled().stmts;
    assert "end" in Called(es[1]);
    assert "end" in CalledInAll(es[1..]);
  }

  /** Distinct names are not enough: one of the labels as shipped is called here, and the call lands on it. */
  lemma EndClashes()
    ensures var root := EndIsCalled();
            var h := Generate(root);
            && WellScoped(root) && EveryIfHasElse(root) && SixArgs(root) && DistinctNames(h.labels)
            && AllAddressable(h.code, |h.vars|, |h.labels|) && Clashes(Assemble(h.code, h.vars, h.labels))
            && !Compilable(root, h.labels)
  {
    hide Generate, Assemble, AllAddressable, Clashes, DistinctNames, ProgramCalls, EndIsCalled, Uses, InIf, InWhile, WellScoped,
         EveryIfHasElse, SixArgs;
    var root := EndIsCalled();
    var labels := Generate(root).labels;
    EndScoped();
    EndFits();
    EndUses("then");
    EndUses("while_start");
    PerNode("then", true);
    PerNode("while_start", true);
    EndCalled();
    NamesDistinctIff(root);
    LabelsAre(root, "end");
    var l :| 0 <= l < |labels| && labels[l] == "end";
    ClashesIff(root, labels);
  }
}
