/**
 Big-step, left-to-right meaning of a program.  Operators and functions are uninterpreted calls
 answered by an oracle that sees every earlier call; the meaning is the trace of calls and the value.
*/
module SourceSemantics {
  import opened Words
  import opened Syntax

  datatype Event = Event(callee: string, args: seq<Word>, result: Word)

  type Trace = seq<Event>

  type Oracle = (Trace, string, seq<Word>) -> Word

  type Env = map<string, Word>

  /**
   Timeout: some `while` has run out of fuel, after the calls recorded so far.  Elseless: evaluation has come to the
   end of an `if` without `else`, from where the code as shipped goes nowhere (ir.c:571-585).
  */
  datatype Outcome = Done(val: Word, trace: Trace) | Timeout(trace: Trace) | Elseless(trace: Trace) | Wrong

  /** ArgsCut: an argument came to no value. */
  datatype ArgsOutcome = ArgsDone(vals: seq<Word>, trace: Trace) | ArgsCut(out: Outcome)

  /** strtol saturates at LONG_MAX, then the result is converted to int (ir.c:496-502). */
  function LiteralInt(text: string): (w: Word) {
    var num := DecimalValue(DigitPrefix(text));
    Wrap32(if num < TWO_63 then num else TWO_63 - 1)
  }

  function LiteralValue(text: string): Word {
    if text == "true" then 1 else if text == "false" then 0 else LiteralInt(text)
  }

  function Perform(o: Oracle, callee: string, args: seq<Word>, tr: Trace): Outcome {
    var result := o(tr, callee, args);
    Done(result, tr + [Event(callee, args, result)])
  }

  function Eval(a: Ast, env: Env, tr: Trace, o: Oracle, fuel: nat): Outcome
    decreases fuel, a
  {
    match a
    case Literal(text, _) => Done(LiteralValue(text), tr)
    case Identifier(name, _) => if name in env then Done(env[name], tr) else Wrong
    case Unary(op, arg, _) =>
      var x := Eval(arg, env, tr, o, fuel);
      if x.Done? then Perform(o, "unary_" + op, [x.val], x.trace) else x
    case Binary(op, left, right, _) =>
      var x := Eval(left, env, tr, o, fuel);
      if !x.Done? then x else
      var y := Eval(right, env, x.trace, o, fuel);
      if y.Done? then Perform(o, op, [x.val, y.val], y.trace) else y
    case Call(callee, args, _) =>
      (match EvalArgs(args, env, tr, o, fuel)
       case ArgsDone(vals, tr1) => Perform(o, callee, vals, tr1)
       case ArgsCut(out) => out)
    case UnitNode => Done(0, tr)
    case Block(stmts, _) => EvalStatements(stmts, map[], tr, o, fuel, 0)
    case IfThen(cond, thn, _) =>
      var x := Eval(cond, env, tr, o, fuel);
      if !x.Done? then x else
      if x.val == 0 then Elseless(x.trace) else
      var y := Eval(thn, env, x.trace, o, fuel);
      if y.Done? then Elseless(y.trace) else y
    case IfElse(cond, thn, els, _) =>
      var x := Eval(cond, env, tr, o, fuel);
      if !x.Done? then x else
      if x.val != 0 then Eval(thn, env, x.trace, o, fuel) else Eval(els, env, x.trace, o, fuel)
    case While(cond, body, _) =>
      if fuel == 0 then Timeout(tr) else
      var x := Eval(cond, env, tr, o, fuel);
      if !x.Done? then x else
      if x.val == 0 then Done(0, x.trace) else
      var y := Eval(body, env, x.trace, o, fuel);
      if !y.Done? then y else Eval(a, env, y.trace, o, fuel - 1)
    case VarExpr(_, init, _, _) =>
      Eval(init, env, tr, o, fuel)
  }

  function EvalArgs(es: seq<Ast>, env: Env, tr: Trace, o: Oracle, fuel: nat): ArgsOutcome
    decreases fuel, es
  {
    if es == [] then ArgsDone([], tr) else
    var x := Eval(es[0], env, tr, o, fuel);
    if !x.Done? then ArgsCut(x) else
    match EvalArgs(es[1..], env, x.trace, o, fuel)
    case ArgsDone(vs, tr1) => ArgsDone([x.val] + vs, tr1)
    case ArgsCut(out) => ArgsCut(out)
  }

  /** A declaration is visible to the statements after it in the same block; the last value is the block's. */
  function EvalStatements(es: seq<Ast>, env: Env, tr: Trace, o: Oracle, fuel: nat, last: Word): Outcome
    decreases fuel, es
  {
    if es == [] then Done(last, tr) else
    var x := Eval(es[0], env, tr, o, fuel);
    if !x.Done? then x else
    var env1 := if es[0].VarExpr? then env[es[0].name := x.val] else env;
    EvalStatements(es[1..], env1, x.trace, o, fuel, x.val)
  }

  /**
   The type of the value a node leaves (ir.c:295-316, 410-612): an identifier has the type of its declaration, an `if`
   that of its then-branch, a block that of its last statement, and whatever leaves no value TUnit.
  */
  function ValueType(a: Ast, types: map<string, Ty>): Ty
    decreases a
  {
    match a
    case Literal(_, ty) => ty
    case Identifier(name, _) => if name in types then types[name] else TError
    case Unary(_, _, ty) => ty
    case Binary(_, _, _, ty) => ty
    case Call(_, _, ty) => ty
    case Block(stmts, _) => LastType(stmts, map[])
    case IfElse(_, thn, _, _) => ValueType(thn, types)
    case _ => TUnit
  }

  function LastType(es: seq<Ast>, types: map<string, Ty>): Ty
    decreases es
  {
    if es == [] then TUnit
    else if |es| == 1 then ValueType(es[0], types)
    else LastType(es[1..], Declare(es[0], types))
  }

  function RootType(root: Ast): Ty {
    ValueType(root, map[])
  }

  /** A whole program: the root's value is printed by the call its type selects (ir.c:295-316). */
  function PrintCallee(ty: Ty): string {
    if ty == TInt then "print_int" else if ty == TBool then "print_bool" else ""
  }

  function RunProgram(root: Ast, o: Oracle, fuel: nat): Outcome {
    var x := Eval(root, map[], [], o, fuel);
    var callee := PrintCallee(RootType(root));
    if x.Done? && callee != "" then Perform(o, callee, [x.val], x.trace) else x
  }

  /** Only an `if` without `else` can end an evaluation in this way. */
  lemma {:induction false} NoElseless(a: Ast, env: Env, tr: Trace, o: Oracle, fuel: nat)
    requires EveryIfHasElse(a)
    ensures !Eval(a, env, tr, o, fuel).Elseless?
    decreases fuel, a
  {
    match a
    case Unary(_, arg, _) => NoElseless(arg, env, tr, o, fuel);
    case Binary(_, left, right, _) =>
      NoElseless(left, env, tr, o, fuel);
      var x := Eval(left, env, tr, o, fuel);
      if x.Done? {
        NoElseless(right, env, x.trace, o, fuel);
      }
    case Call(_, args, _) => NoElselessArgs(args, env, tr, o, fuel);
    case Block(stmts, _) => NoElselessStatements(stmts, map[], tr, o, fuel, 0);
    case IfElse(cond, thn, els, _) =>
      NoElseless(cond, env, tr, o, fuel);
      var x := Eval(cond, env, tr, o, fuel);
      if x.Done? {
        NoElseless(if x.val != 0 then thn else els, env, x.trace, o, fuel);
      }
    case While(cond, body, _) =>
      if fuel > 0 {
        NoElseless(cond, env, tr, o, fuel);
        var x := Eval(cond, env, tr, o, fuel);
        if x.Done? && x.val != 0 {
          NoElseless(body, env, x.trace, o, fuel);
          var y := Eval(body, env, x.trace, o, fuel);
          if y.Done? {
            NoElseless(a, env, y.trace, o, fuel - 1);
          }
        }
      }
    case VarExpr(_, init, _, _) => NoElseless(init, env, tr, o, fuel);
    case _ =>
  }

  lemma {:induction false} NoElselessArgs(es: seq<Ast>, env: Env, tr: Trace, o: Oracle, fuel: nat)
    requires EveryIfHasElseIn(es)
    ensures var r := EvalArgs(es, env, tr, o, fuel); r.ArgsCut? ==> !r.out.Elseless?
    decreases fuel, es
  {
    if es != [] {
      NoElseless(es[0], env, tr, o, fuel);
      var x := Eval(es[0], env, tr, o, fuel);
      if x.Done? {
        NoElselessArgs(es[1..], env, x.trace, o, fuel);
      }
    }
  }

  lemma {:induction false} NoElselessStatements(es: seq<Ast>, env: Env, tr: Trace, o: Oracle, fuel: nat, last: Word)
    requires EveryIfHasElseIn(es)
    ensures !EvalStatements(es, env, tr, o, fuel, last).Elseless?
    decreases fuel, es
  {
    if es != [] {
      NoElseless(es[0], env, tr, o, fuel);
      var x := Eval(es[0], env, tr, o, fuel);
      if x.Done? {
        var env1 := if es[0].VarExpr? then env[es[0].name := x.val] else env;
        NoElselessStatements(es[1..], env1, x.trace, o, fuel, x.val);
      }
    }
  }

  /** A decimal literal means the number written exactly when that number fits in a C int. */
  lemma LiteralIsExact(text: string)
    requires IsDigits(text)
    ensures LiteralInt(text) == DecimalValue(text) <==> DecimalValue(text) < TWO_31
  {
    hide DecimalValue, Wrap32;
    assert DigitPrefix(text) == text;
    WrapExact(if DecimalValue(text) < TWO_63 then DecimalValue(text) else TWO_63 - 1);
  }

  /**
   What a literal means in general: below 2^63 the number written, modulo 2^32 and in the range of a C int; from there
   on -1, since the number read saturates.
  */
  lemma LiteralWraps(text: string)
    requires IsDigits(text)
    ensures -TWO_31 <= LiteralInt(text) < TWO_31
    ensures DecimalValue(text) < TWO_63 ==> (LiteralInt(text) - DecimalValue(text)) % TWO_32 == 0
    ensures DecimalValue(text) >= TWO_63 ==> LiteralInt(text) == -1
  {
    hide DecimalValue;
    assert DigitPrefix(text) == text;
    SaturatedWraps();
  }

  lemma SaturatedWraps()
    ensures Wrap32(TWO_63 - 1) == -1
  {
  }

  lemma WrapExact(n: nat)
    ensures Wrap32(n) == n <==> n < TWO_31
  {
    if n < TWO_31 {
      assert (n + TWO_31) % TWO_32 == n + TWO_31;
    }
  }
}
