/**
 * The current `Expression` class (src/expression.py): built from a string,
 * it keeps the tokens, one binding per variable and the RPN; evaluation first
 * refuses every falsy binding, then runs the stack evaluator.
 */
module CurrentExpression {
  import opened Results
  import opened Tokens
  import opened Tokenizer
  import opened TokenizerProperties
  import opened Rpn
  import opened RpnProperties
  import opened Postfix

  /** Python's `not v` on a binding: unassigned (`None`) or zero. */
  predicate Falsy(v: Option<real>) {
    v.None? || v.value == 0.0
  }

  /** The names `_ensure_variables_assigned` reports. */
  function Unassigned(variables: map<string, Option<real>>): (r: set<string>)
    ensures r <= variables.Keys
    ensures forall x :: x in variables ==> (x in r <==> variables[x] == None || variables[x] == Some(0.0))
  {
    set x | x in variables && Falsy(variables[x])
  }

  /** `dict.fromkeys(names, None)`. */
  function Unbound(names: set<string>): (r: map<string, Option<real>>)
    ensures r.Keys == names
    ensures forall x :: x in r ==> r[x] == None
  {
    map x | x in names :: None
  }

  /** The numbers the evaluator reads for the assigned variables. */
  function Bindings(variables: map<string, Option<real>>): map<string, Num>
  {
    map x | x in variables && variables[x].Some? :: Number(variables[x].value)
  }

  /** Resetting leaves every name unassigned. */
  lemma UnboundUnassigned(names: set<string>)
    ensures Unassigned(Unbound(names)) == names
  {
    assert forall x :: x in Unassigned(Unbound(names)) <==> x in names;
  }

  /**
   * Assigning a number discharges that one name when it is nonzero and leaves
   * it (or makes it) unassigned when it is zero; no other name changes.
   */
  lemma AssignUnassigned(variables: map<string, Option<real>>, x: string, value: real)
    ensures Unassigned(variables[x := Some(value)]) ==
      if value == 0.0 then Unassigned(variables) + {x} else Unassigned(variables) - {x}
  {
    var after := variables[x := Some(value)];
    assert forall y :: y in Unassigned(after) <==>
      y in (if value == 0.0 then Unassigned(variables) + {x} else Unassigned(variables) - {x});
  }

  /** Once nothing is falsy, every name has a nonzero number for the evaluator. */
  lemma AssignedBindings(variables: map<string, Option<real>>)
    requires Unassigned(variables) == {}
    ensures Bindings(variables).Keys == variables.Keys
    ensures forall x :: x in variables ==>
      variables[x].Some? && variables[x].value != 0.0 && Bindings(variables)[x] == Number(variables[x].value)
  {
    forall x | x in variables
      ensures variables[x].Some? && variables[x].value != 0.0
    {
      assert x !in Unassigned(variables);
    }
  }

  class Expression {
    var tokens: seq<Token>
    var variables: map<string, Option<real>>
    var rpn: seq<Token>

    /** The tokens are balanced, the RPN is theirs and every variable has a binding slot. */
    predicate Valid()
      reads this
    {
      && PrefixBalanced(tokens) && TokenDepth(tokens) == 0
      && rpn == ToRpnSpec(tokens)
      && VarSymbols(tokens) <= variables.Keys
    }

    /** `__init__` once `tokenize` has returned: reset bindings, then convert. */
    constructor (tokenized: Tokenized)
      requires PrefixBalanced(tokenized.tokens) && TokenDepth(tokenized.tokens) == 0
      requires tokenized.variables == VarSymbols(tokenized.tokens)
      ensures tokens == tokenized.tokens
      ensures variables == Unbound(tokenized.variables)
      ensures rpn == ToRpnSpec(tokenized.tokens)
      ensures Valid()
    {
      var converted := ToRpn(tokenized.tokens);
      tokens := tokenized.tokens;
      variables := Unbound(tokenized.variables);
      rpn := converted;
    }

    /**
     * `evaluate`: every falsy binding is reported at once; otherwise the stack
     * evaluator runs over the bindings and can fail only for lack of operands.
     */
    method Evaluate() returns (r: Result<Num, EvalError>)
      requires Valid()
      ensures Unassigned(variables) != {} ==> r == Err(UnassignedVariable(Unassigned(variables)))
      ensures Unassigned(variables) == {} ==> r == EvaluateSpec(rpn, Bindings(variables))
      ensures r.Ok? <==> Unassigned(variables) == {} && Feasible(rpn, |rpn|) && Height(rpn, |rpn|) >= 1
      ensures r.Err? ==> !r.error.UnknownVariable?
    {
      var unassigned := Unassigned(variables);
      if unassigned != {} {
        return Err(UnassignedVariable(unassigned));
      }
      var env := Bindings(variables);
      AssignedBindings(variables);
      ToRpnKeepsVariables(tokens);
      VarSymbolsBound(rpn, env);
      EvaluateSucceeds(rpn, env);
      r := Postfix.Evaluate(rpn, env);
    }

    /** `assign_value`: sets or adds one binding and leaves the others alone. */
    method AssignValue(variable: string, value: real)
      requires Valid()
      modifies this
      ensures variables == old(variables)[variable := Some(value)]
      ensures tokens == old(tokens) && rpn == old(rpn)
      ensures Valid()
    {
      variables := variables[variable := Some(value)];
    }

    /** `reset_variables`: same names, all unassigned. */
    method ResetVariables()
      requires Valid()
      modifies this
      ensures variables == Unbound(old(variables).Keys)
      ensures tokens == old(tokens) && rpn == old(rpn)
      ensures Valid()
    {
      variables := Unbound(variables.Keys);
    }
  }

  /**
   * `Expression(expression)`: the tokenizer's error, or an expression over its
   * tokens whose every variable is unassigned.
   */
  method Compile(expression: string) returns (r: Result<Expression, TokenizeError>)
    ensures TokenizeSpec(expression).Err? ==> r == Err(TokenizeSpec(expression).error)
    ensures TokenizeSpec(expression).Ok? ==>
      && r.Ok? && fresh(r.value) && r.value.Valid()
      && r.value.tokens == TokenizeSpec(expression).value.tokens
      && r.value.variables == Unbound(TokenizeSpec(expression).value.variables)
  {
    var tokenized := Tokenize(expression);
    if tokenized.Err? {
      return Err(tokenized.error);
    }
    TokenizeVariables(expression);
    TokenizeBalanced(expression);
    var compiled := new Expression(tokenized.value);
    return Ok(compiled);
  }

  /** A freshly compiled expression with a variable refuses to evaluate until it is assigned. */
  lemma CompiledUnassigned(expression: string)
    requires TokenizeSpec(expression).Ok?
    ensures Unassigned(Unbound(TokenizeSpec(expression).value.variables))
         == VarSymbols(TokenizeSpec(expression).value.tokens)
  {
    TokenizeVariables(expression);
    UnboundUnassigned(TokenizeSpec(expression).value.variables);
  }
}
