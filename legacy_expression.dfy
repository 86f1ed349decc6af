/**
 * The older `Expression` class (expression.py at the repository root): built
 * empty, filled by `parse`, which binds every variable to NaN; evaluation has
 * no assigned-variable check, and `clear_variables` drops every binding.
 */
module LegacyExpression {
  import opened Results
  import opened Tokens
  import opened Tokenizer
  import opened TokenizerProperties
  import opened Rpn
  import opened RpnProperties
  import opened Postfix

  /** `dict.fromkeys(names, float('NaN'))`. */
  function NaNBindings(names: set<string>): (r: map<string, Num>)
    ensures r.Keys == names
    ensures forall x :: x in r ==> r[x] == NaN
  {
    map x | x in names :: NaN
  }

  class Expression {
    var tokens: seq<Token>
    var variables: map<string, Num>
    var rpn: seq<Token>

    /** The tokens are balanced and the RPN is theirs. */
    predicate Valid()
      reads this
    {
      PrefixBalanced(tokens) && TokenDepth(tokens) == 0 && rpn == ToRpnSpec(tokens)
    }

    /** `Expression()`: no tokens, no bindings, no RPN. */
    constructor ()
      ensures tokens == [] && variables == map[] && rpn == []
      ensures Valid()
    {
      tokens := [];
      variables := map[];
      rpn := [];
    }

    /**
     * `parse`: on a tokenizer error nothing changes; otherwise tokens and RPN
     * are replaced and the bindings become exactly the new variables, all NaN.
     */
    method Parse(expression: string) returns (r: Option<TokenizeError>)
      modifies this
      ensures TokenizeSpec(expression).Err? ==>
        r == Some(TokenizeSpec(expression).error)
        && tokens == old(tokens) && variables == old(variables) && rpn == old(rpn)
      ensures TokenizeSpec(expression).Ok? ==>
        && r == None
        && tokens == TokenizeSpec(expression).value.tokens
        && variables == NaNBindings(TokenizeSpec(expression).value.variables)
        && variables.Keys == VarSymbols(tokens)
        && Valid()
    {
      var tokenized := Tokenize(expression);
      if tokenized.Err? {
        return Some(tokenized.error);
      }
      TokenizeVariables(expression);
      TokenizeBalanced(expression);
      tokens := tokenized.value.tokens;
      variables := NaNBindings(tokenized.value.variables);
      rpn := ToRpn(tokens);
      r := None;
    }

    /**
     * `evaluate`: the stack evaluator over the bindings as they are, with no
     * check; a lookup of a missing name fails, and with every variable bound
     * only a lack of operands or an empty stack can fail.
     */
    method Evaluate() returns (r: Result<Num, EvalError>)
      ensures r == EvaluateSpec(rpn, variables)
      ensures Valid() && VarSymbols(tokens) <= variables.Keys ==> r.Err? ==> !r.error.UnknownVariable?
    {
      if Valid() && VarSymbols(tokens) <= variables.Keys {
        ToRpnKeepsVariables(tokens);
        VarSymbolsBound(rpn, variables);
        EvaluateSucceeds(rpn, variables);
      }
      r := Postfix.Evaluate(rpn, variables);
    }

    /** `assign_value`: sets or adds one binding and leaves the others alone. */
    method AssignValue(variable: string, value: real)
      modifies this
      ensures variables == old(variables)[variable := Number(value)]
      ensures tokens == old(tokens) && rpn == old(rpn)
    {
      variables := variables[variable := Number(value)];
    }

    /** `clear_variables`: no bindings at all. */
    method ClearVariables()
      modifies this
      ensures variables == map[]
      ensures tokens == old(tokens) && rpn == old(rpn)
    {
      variables := map[];
    }
  }

  /** Before any `parse`, evaluation finds nothing on the stack. */
  lemma EmptyEvaluation(variables: map<string, Num>)
    ensures EvaluateSpec([], variables) == Err(EmptyStack)
  {
  }

  /** After `clear_variables`, an evaluation that returns a number read no variable. */
  lemma ClearedEvaluation(rpn: seq<Token>)
    ensures EvaluateSpec(rpn, map[]).Ok? ==> forall i :: 0 <= i < |rpn| ==> !rpn[i].Variable?
  {
    if EvaluateSpec(rpn, map[]).Ok? {
      EvaluateNeedsBindings(rpn, map[]);
    }
  }

  /**
   * After `clear_variables`, the first variable in the RPN stops evaluation
   * with that name when every operator before it had its operands, and
   * otherwise an earlier operator short of operands stops it.
   */
  lemma {:induction false} ClearedLookupFails(rpn: seq<Token>, k: nat)
    requires k < |rpn| && rpn[k].Variable?
    requires forall i :: 0 <= i < k ==> !rpn[i].Variable?
    ensures Feasible(rpn, k) ==> EvaluateSpec(rpn, map[]) == Err(UnknownVariable(rpn[k].symbol))
    ensures !Feasible(rpn, k) ==> EvaluateSpec(rpn, map[]).Err? && EvaluateSpec(rpn, map[]).error.MissingOperands?
  {
    RunSucceeds(rpn, map[], k);
    if RunPrefix(rpn, map[], k).Ok? {
      RunErrorPersists(rpn, map[], k + 1, |rpn|);
    } else {
      RunErrorPersists(rpn, map[], k, |rpn|);
    }
  }
}
