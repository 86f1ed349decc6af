/**
 * The stack evaluator of `Expression.evaluate`, shared by both versions:
 * operands are pushed, an operator or function of arity k replaces the top k
 * values with its application to them in push order, and the answer is the
 * bottom of the stack.
 *
 * Numbers are kept symbolic: a value is the term the registered operations
 * build from parsed literals, constants and bindings, so every operator and
 * function is an uninterpreted operation on it.
 */
module Postfix {
  import opened Results
  import opened Tokens
  import opened Tokenizer

  /** A number: a float, the float a literal text parses to, NaN, or an operation applied to numbers. */
  datatype Num =
    | Number(value: real)
    | Parsed(text: string)
    | NaN
    | Apply(symbol: string, args: seq<Num>)

  datatype EvalError =
    | UnassignedVariable(names: set<string>)  // the current version's pre-check
    | UnknownVariable(name: string)           // a variable with no binding at all (a `KeyError`)
    | MissingOperands(position: nat)          // fewer values than the arity (a `TypeError`)
    | EmptyStack                              // nothing left to return (an `IndexError`)

  /** What one RPN token does to the value stack (top last). */
  function Execute(stack: seq<Num>, t: Token, env: map<string, Num>, position: nat): Result<seq<Num>, EvalError>
  {
    match t
    case Operator(s, _, _, k) =>
      if |stack| < k then Err(MissingOperands(position))
      else Ok(stack[..|stack| - k] + [Apply(s, stack[|stack| - k..])])
    case Function(s, k) =>
      if |stack| < k then Err(MissingOperands(position))
      else Ok(stack[..|stack| - k] + [Apply(s, stack[|stack| - k..])])
    case Value(text) => Ok(stack + [Parsed(text)])
    case Constant(_, v) => Ok(stack + [Number(v)])
    case Variable(s) => if s in env then Ok(stack + [env[s]]) else Err(UnknownVariable(s))
    case OpenParen => Ok(stack)
    case CloseParen => Ok(stack)
  }

  /** The value stack after the first `k` tokens, or the error that stopped the loop. */
  function RunPrefix(rpn: seq<Token>, env: map<string, Num>, k: nat): Result<seq<Num>, EvalError>
    requires k <= |rpn|
  {
    if k == 0 then Ok([])
    else
      match RunPrefix(rpn, env, k - 1)
      case Err(e) => Err(e)
      case Ok(stack) => Execute(stack, rpn[k - 1], env, k - 1)
  }

  /** `evaluate` after its pre-check, as a function: the bottom of the final stack. */
  function EvaluateSpec(rpn: seq<Token>, env: map<string, Num>): Result<Num, EvalError>
  {
    match RunPrefix(rpn, env, |rpn|)
    case Err(e) => Err(e)
    case Ok(stack) => if stack == [] then Err(EmptyStack) else Ok(stack[0])
  }

  /** The stack loop of `evaluate` over the bindings `env`. */
  method Evaluate(rpn: seq<Token>, env: map<string, Num>) returns (r: Result<Num, EvalError>)
    ensures r == EvaluateSpec(rpn, env)
  {
    var stack: seq<Num> := [];
    for i := 0 to |rpn|
      invariant RunPrefix(rpn, env, i) == Ok(stack)
    {
      var token := rpn[i];
      if token.Operator? || token.Function? {
        var k := token.arity;
        if |stack| < k {
          RunErrorPersists(rpn, env, i + 1, |rpn|);
          return Err(MissingOperands(i));
        }
        var operands := stack[|stack| - k..];
        stack := stack[..|stack| - k] + [Apply(token.symbol, operands)];
      } else if token.Value? {
        stack := stack + [Parsed(token.text)];
      } else if token.Constant? {
        stack := stack + [Number(token.value)];
      } else if token.Variable? {
        if token.symbol !in env {
          RunErrorPersists(rpn, env, i + 1, |rpn|);
          return Err(UnknownVariable(token.symbol));
        }
        stack := stack + [env[token.symbol]];
      }
    }
    if stack == [] {
      return Err(EmptyStack);
    }
    return Ok(stack[0]);
  }

  lemma {:induction false} RunErrorPersists(rpn: seq<Token>, env: map<string, Num>, j: nat, k: nat)
    requires j <= k <= |rpn| && RunPrefix(rpn, env, j).Err?
    ensures RunPrefix(rpn, env, k) == RunPrefix(rpn, env, j)
    decreases k - j
  {
    if j < k {
      RunErrorPersists(rpn, env, j + 1, k);
    }
  }

  // ------------------------------------------------------------ stack heights

  /** How a token changes the stack height. */
  function Effect(t: Token): int
  {
    match t
    case Operator(_, _, _, k) => 1 - k
    case Function(_, k) => 1 - k
    case OpenParen => 0
    case CloseParen => 0
    case _ => 1
  }

  /** The stack height after the first `k` tokens, counted without running them. */
  function Height(rpn: seq<Token>, k: nat): int
    requires k <= |rpn|
  {
    if k == 0 then 0 else Height(rpn, k - 1) + Effect(rpn[k - 1])
  }

  /** Every operator and function among the first `k` tokens finds enough values below it. */
  predicate Feasible(rpn: seq<Token>, k: nat)
    requires k <= |rpn|
  {
    forall i :: 0 <= i < k && (rpn[i].Operator? || rpn[i].Function?) ==> Height(rpn, i) >= rpn[i].arity
  }

  /** Every variable among the first `k` tokens has a binding. */
  predicate Bound(rpn: seq<Token>, env: map<string, Num>, k: nat)
    requires k <= |rpn|
  {
    forall i :: 0 <= i < k && rpn[i].Variable? ==> rpn[i].symbol in env
  }

  /**
   * With every variable bound, the loop gets through `k` tokens exactly when
   * each operator and function finds enough values, and the stack then has the
   * height the tokens predict.
   */
  lemma {:induction false} RunSucceeds(rpn: seq<Token>, env: map<string, Num>, k: nat)
    requires k <= |rpn| && Bound(rpn, env, k)
    ensures RunPrefix(rpn, env, k).Ok? <==> Feasible(rpn, k)
    ensures RunPrefix(rpn, env, k).Ok? ==> |RunPrefix(rpn, env, k).value| == Height(rpn, k)
    ensures RunPrefix(rpn, env, k).Err? ==> RunPrefix(rpn, env, k).error.MissingOperands?
  {
    if k > 0 {
      RunSucceeds(rpn, env, k - 1);
      assert Feasible(rpn, k) <==>
        Feasible(rpn, k - 1) && (rpn[k - 1].Operator? || rpn[k - 1].Function? ==> Height(rpn, k - 1) >= rpn[k - 1].arity);
    }
  }

  /** The loop only gets through a variable it has a binding for. */
  lemma {:induction false} RunNeedsBindings(rpn: seq<Token>, env: map<string, Num>, k: nat)
    requires k <= |rpn| && RunPrefix(rpn, env, k).Ok?
    ensures Bound(rpn, env, k)
  {
    if k > 0 {
      RunNeedsBindings(rpn, env, k - 1);
    }
  }

  /**
   * With every variable bound, evaluation succeeds exactly when every operator
   * and function finds enough values and at least one value is left; a
   * well-formed RPN (exactly one value left) yields that value.
   */
  lemma EvaluateSucceeds(rpn: seq<Token>, env: map<string, Num>)
    requires Bound(rpn, env, |rpn|)
    ensures EvaluateSpec(rpn, env).Ok? <==> Feasible(rpn, |rpn|) && Height(rpn, |rpn|) >= 1
    ensures EvaluateSpec(rpn, env).Err? ==>
      EvaluateSpec(rpn, env).error.MissingOperands? || EvaluateSpec(rpn, env).error == EmptyStack
    ensures Feasible(rpn, |rpn|) && Height(rpn, |rpn|) == 1 ==>
      RunPrefix(rpn, env, |rpn|) == Ok([EvaluateSpec(rpn, env).value])
  {
    RunSucceeds(rpn, env, |rpn|);
    if Feasible(rpn, |rpn|) && Height(rpn, |rpn|) == 1 {
      var stack := RunPrefix(rpn, env, |rpn|).value;
      assert stack == [stack[0]];
    }
  }

  /** An evaluation that returns a number has met a binding for every variable it read. */
  lemma EvaluateNeedsBindings(rpn: seq<Token>, env: map<string, Num>)
    requires EvaluateSpec(rpn, env).Ok?
    ensures Bound(rpn, env, |rpn|)
  {
    RunNeedsBindings(rpn, env, |rpn|);
  }

  /** A token list whose variable names all have bindings is bound throughout. */
  lemma {:induction false} VarSymbolsBound(rpn: seq<Token>, env: map<string, Num>)
    requires VarSymbols(rpn) <= env.Keys
    ensures Bound(rpn, env, |rpn|)
  {
    if rpn != [] {
      var init := rpn[..|rpn| - 1];
      assert VarSymbols(init) <= VarSymbols(rpn);
      VarSymbolsBound(init, env);
      assert forall i :: 0 <= i < |init| ==> init[i] == rpn[i];
    }
  }
}
