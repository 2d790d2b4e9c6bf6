/**
 The IR generator as it runs (ir.c:36-317, 410-692): vectors that grow in place, one symbol table per
 block, and call arguments stored one list after another in a shared vector.  Every method is proved to
 take the generator's state where the functions of module Lowering say.
*/
module IrGenerator {
  import opened Syntax
  import opened SourceSemantics
  import opened Ir
  import opened Lowering
  import opened CallArguments

  /**
   An instruction as stored.  A call keeps a pointer to its arguments (ir.h:78-84): into which memory the vector of
   arguments then had, counted from 0, and where in it.
  */
  datatype Stored = Plain(instr: Instr) | StoredCall(fn: int, memory: nat, argsAt: nat, numArgs: nat, dest: int)

  predicate WithinPool(i: Stored, pool: seq<int>) {
    i.StoredCall? ==> i.argsAt + i.numArgs <= |pool|
  }

  predicate AllWithinPool(code: seq<Stored>, pool: seq<int>) {
    forall k :: 0 <= k < |code| ==> WithinPool(code[k], pool)
  }

  function Resolve(i: Stored, pool: seq<int>): Instr
    requires WithinPool(i, pool)
  {
    match i
    case Plain(instr) => instr
    case StoredCall(fn, _, at, num, dest) => CallFn(fn, pool[at..at + num], dest)
  }

  function ResolveAll(code: seq<Stored>, pool: seq<int>): seq<Instr>
    requires AllWithinPool(code, pool)
  {
    seq(|code|, k requires 0 <= k < |code| => Resolve(code[k], pool))
  }

  /** What is stored in the vector stays at its index as the vector grows. */
  lemma PoolGrows(code: seq<Stored>, pool: seq<int>, more: seq<int>)
    requires AllWithinPool(code, pool)
    ensures AllWithinPool(code, pool + more) && ResolveAll(code, pool + more) == ResolveAll(code, pool)
  {
    forall k | 0 <= k < |code|
      ensures WithinPool(code[k], pool + more) && Resolve(code[k], pool + more) == Resolve(code[k], pool)
    {
      if code[k].StoredCall? {
        var at, num := code[k].argsAt, code[k].numArgs;
        assert (pool + more)[at..at + num] == pool[at..at + num];
      }
    }
  }

  /** The vector's first capacity (ir.c:42). */
  const CALL_ARGS: nat := 1024

  predicate HasArgs(i: Stored) {
    i.StoredCall? && i.numArgs > 0
  }

  /**
   Once more than fits the first memory is stored, every further call moves the vector, which has grown by no more than
   that call needed (vector.c:301-306): only the last call still points into the memory in use.
  */
  predicate Memories(code: seq<Stored>, size: nat, capacity: nat, memory: nat) {
    && capacity == (if size <= CALL_ARGS then CALL_ARGS else size)
    && (memory == 0 <==> size <= CALL_ARGS)
    && forall k :: 0 <= k < |code| && HasArgs(code[k]) ==>
         && code[k].memory <= memory && code[k].argsAt + code[k].numArgs <= size
         && (code[k].memory == memory <==> size <= CALL_ARGS || code[k].argsAt + code[k].numArgs == size)
  }

  lemma MemoriesStore(code: seq<Stored>, size: nat, capacity: nat, memory: nat, fn: int, n: nat, dest: int)
    requires Memories(code, size, capacity, memory)
    ensures var (c, m) := if capacity >= size + n then (capacity, memory) else (size + n, memory + 1);
            Memories(code + [StoredCall(fn, m, size, n, dest)], size + n, c, m)
  {
  }

  lemma MemoriesPush(code: seq<Stored>, size: nat, capacity: nat, memory: nat, i: Instr)
    requires Memories(code, size, capacity, memory)
    ensures Memories(code + [Plain(i)], size, capacity, memory)
  {
  }

  class SymbolTable {
    var bindings: Scope

    constructor ()
      ensures bindings == map[]
    {
      bindings := map[];
    }
  }

  class IrData {
    var irVars: seq<IrVar>
    var irLabels: seq<string>
    var irCallArgs: seq<int>
    var irInstructions: seq<Stored>
    var capacity: nat
    var memory: nat

    ghost predicate Valid()
      reads this
    {
      && AllWithinPool(irInstructions, irCallArgs)
      && |irCallArgs| == ArgsIn(ResolveAll(irInstructions, irCallArgs))
      && Memories(irInstructions, |irCallArgs|, capacity, memory)
    }

    /** The abstract state: instructions with their argument lists. */
    ghost function State(): Gen
      requires Valid()
      reads this
    {
      Gen(irVars, irLabels, ResolveAll(irInstructions, irCallArgs))
    }

    constructor ()
      ensures Valid() && State() == EMPTY_GEN
    {
      irVars, irLabels, irCallArgs, irInstructions := [], [], [], [];
      capacity, memory := CALL_ARGS, 0;
    }

    method CreateIrVar(name: string, ty: Ty) returns (idx: int)
      requires Valid()
      modifies this
      ensures Valid() && State() == AddVar(old(State()), name, ty) && idx == old(|irVars|)
    {
      idx := |irVars|;
      irVars := irVars + [IrVar(name, ty)];
    }

    method CreateUniqueIrVar(ty: Ty) returns (idx: int)
      requires Valid()
      modifies this
      ensures Valid() && State() == AddUnique(old(State()), ty) && idx == old(|irVars|)
    {
      idx := CreateIrVar(UniqueName(|irVars|), ty);
    }

    method CreateIrLabel(name: string) returns (idx: int)
      requires Valid()
      modifies this
      ensures Valid() && State() == AddLabel(old(State()), name) && idx == old(|irLabels|)
    {
      idx := |irLabels|;
      irLabels := irLabels + [name];
    }

    /** Loads, copies, jumps and labels: pushed as they are. */
    method Push(i: Instr)
      requires Valid() && !i.CallFn?
      modifies this
      ensures Valid() && State() == Emit(old(State()), i)
    {
      ghost var before := State();
      MemoriesPush(irInstructions, |irCallArgs|, capacity, memory, i);
      irInstructions := irInstructions + [Plain(i)];
      assert ResolveAll(irInstructions, irCallArgs) == before.code + [i];
      EmitCounts(before, i);
    }

    /** cabor_vector_reserve: too small a vector is moved. */
    method Reserve(size: nat)
      modifies this`capacity, this`memory
      ensures (capacity, memory) == if old(capacity) >= size then (old(capacity), old(memory)) else (size, old(memory) + 1)
    {
      if capacity < size {
        capacity, memory := size, memory + 1;
      }
    }

    method CreateIrCall(fn: int, args: seq<int>, dest: int)
      requires Valid()
      modifies this
      ensures Valid() && State() == Emit(old(State()), CallFn(fn, args, dest))
    {
      hide ArgsIn, Memories;
      ghost var before := State();
      var at := |irCallArgs|;
      MemoriesStore(irInstructions, at, capacity, memory, fn, |args|, dest);
      Reserve(at + |args|);
      PoolGrows(irInstructions, irCallArgs, args);
      irCallArgs := irCallArgs + args;
      irInstructions := irInstructions + [StoredCall(fn, memory, at, |args|, dest)];
      assert irCallArgs[at..at + |args|] == args;
      assert ResolveAll(irInstructions, irCallArgs) == before.code + [CallFn(fn, args, dest)];
      EmitCounts(before, CallFn(fn, args, dest));
    }

    /** A call whose result goes to a fresh variable. */
    method CallToFresh(fn: int, args: seq<int>, ty: Ty) returns (dest: int)
      requires Valid()
      modifies this
      ensures Valid() && State() == EmitCall(old(State()), fn, args, ty) && dest == |old(State()).vars|
    {
      dest := CreateUniqueIrVar(ty);
      CreateIrCall(fn, args, dest);
    }

    method RequireIrVar(table: SymbolTable, name: string, ty: Ty)
      requires Valid()
      modifies this, table
      ensures Valid() && (State(), table.bindings) == Require(old(State()), old(table.bindings), name, ty)
    {
      if name !in table.bindings {
        var idx := CreateIrVar(name, ty);
        table.bindings := table.bindings[name := idx];
      }
    }

    /** The state after visiting a node. */
    ghost predicate Visited(table: SymbolTable, v: int, r: Low)
      reads this, table
    {
      Valid() && State() == r.g && table.bindings == r.s && v == r.v
    }

    method VisitIrNode(a: Ast, table: SymbolTable) returns (v: int)
      requires Valid()
      modifies this, table
      ensures Visited(table, v, Visit(a, old(State()), old(table.bindings)))
      decreases a, 1
    {
      hide Memories, AllWithinPool, ResolveAll, ArgsIn, VisitLiteral, VisitUnary, VisitBinary, VisitCall, VisitIfThen,
           VisitIfElse, VisitWhile, VisitVarExpr;
      match a {
        case Literal(_, _) => v := VisitIrLiteral(a, table);
        case Identifier(name, _) => v := Lookup(table.bindings, name);
        case Unary(_, _, _) => v := VisitIrUnaryop(a, table);
        case Binary(_, _, _, _) => v := VisitIrBinaryop(a, table);
        case Call(_, _, _) => v := VisitIrFunctionCall(a, table);
        case UnitNode => v := UNIT_VAR;
        case Block(_, _) => v := VisitIrBlock(a, table);
        case IfThen(_, _, _) => v := VisitIrIfThen(a, table);
        case IfElse(_, _, _, _) => v := VisitIrIfThenElse(a, table);
        case While(_, _, _) => v := VisitIrWhile(a, table);
        case VarExpr(_, _, _, _) => v := VisitIrVarExpr(a, table);
      }
    }

    method VisitIrLiteral(a: Ast, table: SymbolTable) returns (v: int)
      requires Valid() && a.Literal?
      modifies this
      ensures Visited(table, v, VisitLiteral(a.text, a.ty, old(State()), old(table.bindings)))
    {
      v := CreateUniqueIrVar(a.ty);
      match a.ty {
        case TBool =>
          if a.text == "true" {
            Push(LoadBool(true, v));
          } else if a.text == "false" {
            Push(LoadBool(false, v));
          } else {
            v := INVALID_VAR;
          }
        case TInt => Push(LoadInt(LiteralInt(a.text), v));
        case TUnit => v := 2;
        case TFunction => v := INVALID_VAR;
        case TError => v := INVALID_VAR;
      }
    }

    method VisitIrUnaryop(a: Ast, table: SymbolTable) returns (v: int)
      requires Valid() && a.Unary?
      modifies this, table
      ensures Visited(table, v, VisitUnary(a, old(State()), old(table.bindings)))
      decreases a, 0
    {
      var fn := "unary_" + a.op;
      RequireIrVar(table, fn, TUnit);
      var f := table.bindings[fn];
      var arg := VisitIrNode(a.arg, table);
      v := CallToFresh(f, [arg], a.ty);
    }

    method VisitIrBinaryop(a: Ast, table: SymbolTable) returns (v: int)
      requires Valid() && a.Binary?
      modifies this, table
      ensures Visited(table, v, VisitBinary(a, old(State()), old(table.bindings)))
      decreases a, 0
    {
      RequireIrVar(table, a.op, a.ty);
      var left := VisitIrNode(a.left, table);
      var right := VisitIrNode(a.right, table);
      v := CallToFresh(table.bindings[a.op], [left, right], a.ty);
    }

    method VisitIrFunctionCall(a: Ast, table: SymbolTable) returns (v: int)
      requires Valid() && a.Call?
      modifies this, table
      ensures Visited(table, v, VisitCall(a, old(State()), old(table.bindings)))
      decreases a, 0
    {
      var fn := Lookup(table.bindings, a.callee);
      var args: seq<int> := [];
      var i := 0;
      ghost var goal := VisitArgs(a.args, State(), table.bindings);
      while i < |a.args|
        invariant 0 <= i <= |a.args| && Valid()
        invariant var rest := VisitArgs(a.args[i..], State(), table.bindings);
                  goal == rest.(vs := args + rest.vs)
      {
        assert a.args[i..][1..] == a.args[i + 1..];
        ghost var before := args;
        var arg := VisitIrNode(a.args[i], table);
        args := args + [arg];
        i := i + 1;
        assert forall vs: seq<int> :: before + ([arg] + vs) == args + vs;
      }
      assert a.args[i..] == [] && args + [] == args;
      assert goal == LowArgs(State(), table.bindings, args);
      v := CallToFresh(fn, args, a.ty);
    }

    method VisitIrBlock(a: Ast, table: SymbolTable) returns (v: int)
      requires Valid() && a.Block?
      modifies this
      ensures Visited(table, v, Visit(a, old(State()), old(table.bindings)))
      decreases a, 0
    {
      v := UNIT_VAR;
      var newScope := new SymbolTable();
      var i := 0;
      ghost var goal := VisitStatements(a.stmts, State(), map[], UNIT_VAR);
      while i < |a.stmts|
        invariant 0 <= i <= |a.stmts| && Valid() && fresh(newScope)
        invariant goal == VisitStatements(a.stmts[i..], State(), newScope.bindings, v)
      {
        assert a.stmts[i..][1..] == a.stmts[i + 1..];
        v := VisitIrNode(a.stmts[i], newScope);
        i := i + 1;
      }
      assert a.stmts[i..] == [];
    }

    method VisitIrIfThen(a: Ast, table: SymbolTable) returns (v: int)
      requires Valid() && a.IfThen?
      modifies this, table
      ensures Visited(table, v, VisitIfThen(a, old(State()), old(table.bindings)))
      decreases a, 0
    {
      var lThen := CreateIrLabel("then");
      var lEnd := CreateIrLabel("end");
      var cond := VisitIrNode(a.cond, table);
      Push(CondJump(cond, lThen, lEnd));
      Push(Label(lThen));
      var thn := VisitIrNode(a.thn, table);
      Push(Jump(lEnd));
      Push(Label(lThen));
      v := UNIT_VAR;
    }

    method IrVarType(v: int) returns (ty: Ty)
      requires Valid()
      ensures ty == TypeOfVar(State(), v)
    {
      ty := if 0 <= v < |irVars| then irVars[v].ty else TError;
    }

    method VisitIrIfThenElse(a: Ast, table: SymbolTable) returns (v: int)
      requires Valid() && a.IfElse?
      modifies this, table
      ensures Visited(table, v, VisitIfElse(a, old(State()), old(table.bindings)))
      decreases a, 0
    {
      hide Visit, ResolveAll, AllWithinPool;
      var lThen := CreateIrLabel("then");
      var lEnd := CreateIrLabel("end");
      var lElse := CreateIrLabel("else");
      var cond := VisitIrNode(a.cond, table);
      Push(CondJump(cond, lThen, lElse));
      Push(Label(lThen));
      var thn := VisitIrNode(a.thn, table);
      var ty := IrVarType(thn);
      v := CreateUniqueIrVar(ty);
      Push(Copy(thn, v));
      Push(Jump(lEnd));
      Push(Label(lElse));
      var els := VisitIrNode(a.els, table);
      Push(Copy(els, v));
      Push(Jump(lEnd));
      Push(Label(lEnd));
    }

    method VisitIrWhile(a: Ast, table: SymbolTable) returns (v: int)
      requires Valid() && a.While?
      modifies this, table
      ensures Visited(table, v, VisitWhile(a, old(State()), old(table.bindings)))
      decreases a, 0
    {
      var lStart := CreateIrLabel("while_start");
      var lBody := CreateIrLabel("while_body");
      var lEnd := CreateIrLabel("while_end");
      Push(Label(lStart));
      var cond := VisitIrNode(a.cond, table);
      Push(CondJump(cond, lBody, lEnd));
      Push(Label(lBody));
      var _ := VisitIrNode(a.body, table);
      Push(Jump(lStart));
      Push(Label(lEnd));
      v := UNIT_VAR;
    }

    method VisitIrVarExpr(a: Ast, table: SymbolTable) returns (v: int)
      requires Valid() && a.VarExpr?
      modifies this, table
      ensures Visited(table, v, VisitVarExpr(a, old(State()), old(table.bindings)))
      decreases a, 0
    {
      var dest := CreateIrVar(a.name, a.ty);
      var value := VisitIrNode(a.init, table);
      Push(Copy(value, dest));
      table.bindings := table.bindings[a.name := dest];
      v := UNIT_VAR;
    }

    /** The whole program, from an empty generator. */
    method GenerateIr(root: Ast)
      requires Valid() && State() == EMPTY_GEN
      modifies this
      ensures Valid() && State() == Generate(root)
      // whether the calls find their arguments where they were stored
      ensures memory == 0 <==> ProgramArgs(root) <= 1024
      ensures forall k :: 0 <= k < |irInstructions| && HasArgs(irInstructions[k]) ==>
                var i := irInstructions[k];
                i.memory == memory <==> ProgramArgs(root) <= 1024 || i.argsAt + i.numArgs == ProgramArgs(root)
    {
      hide Visit, ArgsIn, ProgramArgs;
      var printInt := CreateIrVar("print_int", TInt);
      var printBool := CreateIrVar("print_bool", TBool);
      var symtab := new SymbolTable();
      symtab.bindings := map["print_int" := printInt, "print_bool" := printBool];
      assert State() == RootGen();
      var v := VisitIrNode(root, symtab);
      var ty := TUnit;
      if v > 0 {
        ty := IrVarType(v);
      }
      if ty == TInt {
        CreateIrCall(printInt, [v], UNIT_VAR);
      } else if ty == TBool {
        CreateIrCall(printBool, [v], UNIT_VAR);
      }
      ProgramCounts(root);
    }
  }
}
