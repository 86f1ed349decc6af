/**
 * Worked conversions and evaluations on concrete token lists: `^` groups to
 * the right, a function applies to everything up to the end of the input, an
 * operator receives its operands in push order, the answer is the bottom of
 * the stack, and an operator short of operands fails.
 */
module WorkedExamples {
  import opened Results
  import opened Tokens
  import opened Rpn
  import opened Postfix

  const Minus: Token := Operator("-", 2, Left, 2)
  const Factorial: Token := Operator("!", 5, Left, 1)

  const Plus: Token := Operator("+", 2, Left, 2)
  const Power: Token := Operator("^", 4, Right, 2)
  const Sine: Token := Function("sin", 1)

  const NoBindings: map<string, Num> := map[]

  /** The tokens above are the registered ones. */
  lemma RegisteredTokens()
    ensures Minus == MakeOperator("-") && Factorial == MakeOperator("!")
    ensures Plus == MakeOperator("+") && Power == MakeOperator("^") && Sine == MakeFunction("sin")
  {
  }

  /** `2^3^2` converts to `2 3 2 ^ ^`: the second `^` does not pop the first. */
  lemma PowerGroupsRight(ts: seq<Token>)
    requires ts == [Value("2"), Power, Value("3"), Power, Value("2")]
    ensures PrefixBalanced(ts) && ToRpnSpec(ts) == [Value("2"), Value("3"), Value("2"), Power, Power]
  {
    NoParensBalanced(ts);
    PowerShunt(ts);
    Drained([Value("2"), Value("3"), Value("2")], Power, Power);
  }

  lemma PowerShunt(ts: seq<Token>)
    requires ts == [Value("2"), Power, Value("3"), Power, Value("2")] && PrefixBalanced(ts)
    ensures ShuntPrefix(ts, 5) == Shunt([Value("2"), Value("3"), Value("2")], [Power, Power])
  {
    PowerStacked(ts);
    ShuntUnfold(ts, 5);
    EnqueueStep(Shunt([Value("2"), Value("3")], [Power, Power]), Value("2"));
  }

  /** After `2 ^ 3 ^`: the second `^` is stacked on the first, which stays. */
  lemma PowerStacked(ts: seq<Token>)
    requires ts == [Value("2"), Power, Value("3"), Power, Value("2")] && PrefixBalanced(ts)
    ensures ShuntPrefix(ts, 4) == Shunt([Value("2"), Value("3")], [Power, Power])
  {
    PowerQueued(ts);
    ShuntUnfold(ts, 4);
    OperatorStep(Shunt([Value("2"), Value("3")], [Power]), Power);
  }

  /** After `2 ^ 3`: both operands are queued below the first `^`. */
  lemma PowerQueued(ts: seq<Token>)
    requires ts == [Value("2"), Power, Value("3"), Power, Value("2")] && PrefixBalanced(ts)
    ensures ShuntPrefix(ts, 3) == Shunt([Value("2"), Value("3")], [Power])
  {
    PowerPushed(ts);
    ShuntUnfold(ts, 3);
    EnqueueStep(Shunt([Value("2")], [Power]), Value("3"));
  }

  /** After `2 ^`: `2` is queued and `^` stacked. */
  lemma PowerPushed(ts: seq<Token>)
    requires ts == [Value("2"), Power, Value("3"), Power, Value("2")] && PrefixBalanced(ts)
    ensures ShuntPrefix(ts, 2) == Shunt([Value("2")], [Power])
  {
    assert ShuntPrefix(ts, 1) == Shunt([Value("2")], []) by {
      ShuntUnfold(ts, 1);
      EnqueueStep(Shunt([], []), Value("2"));
    }
    ShuntUnfold(ts, 2);
    OperatorStep(Shunt([Value("2")], []), Power);
  }

  /** An operand goes to the queue. */
  lemma EnqueueStep(sh: Shunt, t: Token)
    requires IsOperand(t)
    ensures ShuntStep(sh, t) == Shunt(sh.queue + [t], sh.stack)
  {
  }

  /** `(` and functions are pushed. */
  lemma StackStep(sh: Shunt, t: Token)
    requires t.OpenParen? || t.Function?
    ensures ShuntStep(sh, t) == Shunt(sh.queue, sh.stack + [t])
  {
  }

  /** An operator that the top does not take precedence over is pushed without popping. */
  lemma OperatorStep(sh: Shunt, t: Token)
    requires t.Operator?
    requires sh.stack == [] || !sh.stack[|sh.stack| - 1].Operator? || !HasHigherPrecedence(t, sh.stack[|sh.stack| - 1])
    ensures ShuntStep(sh, t) == Shunt(sh.queue, sh.stack + [t])
  {
  }

  /** A `)` right above its `(` only drops the `(`. */
  lemma CloseStep(sh: Shunt)
    requires sh.stack != [] && sh.stack[|sh.stack| - 1].OpenParen?
    ensures OpenCount(sh.stack) > 0
    ensures ShuntStep(sh, CloseParen) == Shunt(sh.queue, sh.stack[..|sh.stack| - 1])
  {
    assert OpenCount(sh.stack) == OpenCount(sh.stack[..|sh.stack| - 1]) + 1;
  }

  /** One more token is one more step. */
  lemma ShuntUnfold(ts: seq<Token>, k: nat)
    requires 0 < k <= |ts| && PrefixBalanced(ts)
    ensures ts[k - 1].CloseParen? ==> OpenCount(ShuntPrefix(ts, k - 1).stack) > 0
    ensures ShuntPrefix(ts, k) == ShuntStep(ShuntPrefix(ts, k - 1), ts[k - 1])
  {
    assert ts[..k][..k - 1] == ts[..k - 1];
    assert TokenDepth(ts[..k]) >= 0;
  }

  /** Flushing a two-token stack appends its top first. */
  lemma Drained(queue: seq<Token>, bottom: Token, top: Token)
    ensures Drain(queue, [bottom, top]) == queue + [top, bottom]
  {
    assert [bottom, top][..1] == [bottom];
    assert [bottom][..0] == [];
    assert Drain(queue, [bottom, top]) == Drain(queue + [top], [bottom]);
    assert Drain(queue + [top], [bottom]) == Drain(queue + [top] + [bottom], []);
  }

  lemma NoParensBalanced(ts: seq<Token>)
    requires forall i :: 0 <= i < |ts| ==> !ts[i].OpenParen? && !ts[i].CloseParen?
    ensures PrefixBalanced(ts)
  {
    forall j | 0 <= j <= |ts| ensures TokenDepth(ts[..j]) == 0 {
      NoParenDepth(ts[..j]);
    }
  }

  lemma NoParenDepth(ts: seq<Token>)
    requires forall i :: 0 <= i < |ts| ==> !ts[i].OpenParen? && !ts[i].CloseParen?
    ensures TokenDepth(ts) == 0
  {
    if ts != [] {
      NoParenDepth(ts[..|ts| - 1]);
    }
  }

  /** `2 3 2 ^ ^` evaluates to `2 ^ (3 ^ 2)`. */
  lemma PowerValue(rpn: seq<Token>)
    requires rpn == [Value("2"), Value("3"), Value("2"), Power, Power]
    ensures EvaluateSpec(rpn, NoBindings) == Ok(Apply("^", [Parsed("2"), Apply("^", [Parsed("3"), Parsed("2")])]))
  {
    var pushed := [Parsed("2"), Parsed("3"), Parsed("2")];
    var inner := Apply("^", [Parsed("3"), Parsed("2")]);
    assert RunPrefix(rpn, NoBindings, 0) == Ok([]);
    assert RunPrefix(rpn, NoBindings, 1).value == [Parsed("2")];
    assert RunPrefix(rpn, NoBindings, 2).value == [Parsed("2"), Parsed("3")];
    assert RunPrefix(rpn, NoBindings, 3).value == pushed;
    assert pushed[..1] == [Parsed("2")] && pushed[1..] == [Parsed("3"), Parsed("2")];
    assert RunPrefix(rpn, NoBindings, 4).value == [Parsed("2"), inner];
    assert [Parsed("2"), inner][..0] == [] && [Parsed("2"), inner][0..] == [Parsed("2"), inner];
    assert RunPrefix(rpn, NoBindings, 5).value == [Apply("^", [Parsed("2"), inner])];
  }

  /**
   * The tokens of `sin(0)+1` convert to `0 1 + sin`: the `)` does not pop
   * `sin`, and `+` does not pop a function, so `sin` waits for the end.
   */
  lemma FunctionWaitsForEnd(ts: seq<Token>)
    requires ts == [Sine, OpenParen, Value("0"), CloseParen, Plus, Value("1")]
    ensures PrefixBalanced(ts) && ToRpnSpec(ts) == [Value("0"), Value("1"), Plus, Sine]
  {
    FunctionBalanced(ts);
    FunctionShunt(ts);
    Drained([Value("0"), Value("1")], Sine, Plus);
  }

  lemma FunctionBalanced(ts: seq<Token>)
    requires ts == [Sine, OpenParen, Value("0"), CloseParen, Plus, Value("1")]
    ensures PrefixBalanced(ts)
  {
    assert ts[..0] == [] && ts[..1] == [Sine];
    assert ts[..2] == ts[..1] + [OpenParen] && ts[..3] == ts[..2] + [Value("0")];
    assert ts[..4] == ts[..3] + [CloseParen] && ts[..5] == ts[..4] + [Plus] && ts[..6] == ts;
    assert TokenDepth(ts[..1]) == 0;
    assert TokenDepth(ts[..2]) == 1 && TokenDepth(ts[..3]) == 1;
    assert TokenDepth(ts[..4]) == 0 && TokenDepth(ts[..5]) == 0 && TokenDepth(ts[..6]) == 0;
  }

  lemma FunctionShunt(ts: seq<Token>)
    requires ts == [Sine, OpenParen, Value("0"), CloseParen, Plus, Value("1")] && PrefixBalanced(ts)
    ensures ShuntPrefix(ts, 6) == Shunt([Value("0"), Value("1")], [Sine, Plus])
  {
    FunctionClosed(ts);
    assert ShuntPrefix(ts, 5) == Shunt([Value("0")], [Sine, Plus]) by {
      ShuntUnfold(ts, 5);
      OperatorStep(Shunt([Value("0")], [Sine]), Plus);
    }
    ShuntUnfold(ts, 6);
    EnqueueStep(Shunt([Value("0")], [Sine, Plus]), Value("1"));
  }

  /** After `sin ( 0 )`: the `(` is gone and `sin` stays on the stack. */
  lemma FunctionClosed(ts: seq<Token>)
    requires ts == [Sine, OpenParen, Value("0"), CloseParen, Plus, Value("1")] && PrefixBalanced(ts)
    ensures ShuntPrefix(ts, 4) == Shunt([Value("0")], [Sine])
  {
    FunctionOpened(ts);
    ShuntUnfold(ts, 4);
    CloseStep(Shunt([Value("0")], [Sine, OpenParen]));
    assert [Sine, OpenParen][..1] == [Sine];
  }

  /** After `sin ( 0`: the `0` is queued above `sin (` on the stack. */
  lemma FunctionOpened(ts: seq<Token>)
    requires ts == [Sine, OpenParen, Value("0"), CloseParen, Plus, Value("1")] && PrefixBalanced(ts)
    ensures ShuntPrefix(ts, 3) == Shunt([Value("0")], [Sine, OpenParen])
  {
    assert ShuntPrefix(ts, 1) == Shunt([], [Sine]) by {
      ShuntUnfold(ts, 1);
      StackStep(Shunt([], []), Sine);
    }
    assert ShuntPrefix(ts, 2) == Shunt([], [Sine, OpenParen]) by {
      ShuntUnfold(ts, 2);
      StackStep(Shunt([], [Sine]), OpenParen);
    }
    ShuntUnfold(ts, 3);
    EnqueueStep(Shunt([], [Sine, OpenParen]), Value("0"));
  }

  /** `0 1 + sin` evaluates to `sin(0 + 1)`. */
  lemma FunctionValue(rpn: seq<Token>)
    requires rpn == [Value("0"), Value("1"), Plus, Sine]
    ensures EvaluateSpec(rpn, NoBindings) == Ok(Apply("sin", [Apply("+", [Parsed("0"), Parsed("1")])]))
  {
    var pushed := [Parsed("0"), Parsed("1")];
    var sum := Apply("+", pushed);
    assert RunPrefix(rpn, NoBindings, 0) == Ok([]);
    assert RunPrefix(rpn, NoBindings, 1).value == [Parsed("0")];
    assert RunPrefix(rpn, NoBindings, 2).value == pushed;
    assert pushed[..0] == [] && pushed[0..] == pushed;
    assert RunPrefix(rpn, NoBindings, 3).value == [sum];
    assert [sum][..0] == [] && [sum][0..] == [sum];
    assert RunPrefix(rpn, NoBindings, 4).value == [Apply("sin", [sum])];
  }

  /** The tokens of `2^3^2` evaluate to `2 ^ (3 ^ 2)`. */
  lemma PowerEvaluation(ts: seq<Token>)
    requires ts == [Value("2"), Power, Value("3"), Power, Value("2")]
    ensures PrefixBalanced(ts)
    ensures EvaluateSpec(ToRpnSpec(ts), NoBindings) == Ok(Apply("^", [Parsed("2"), Apply("^", [Parsed("3"), Parsed("2")])]))
  {
    PowerGroupsRight(ts);
    PowerValue(ToRpnSpec(ts));
  }

  /** The tokens of `sin(0)+1` evaluate to `sin(0 + 1)`, not to `sin(0) + 1`. */
  lemma FunctionEvaluation(ts: seq<Token>)
    requires ts == [Sine, OpenParen, Value("0"), CloseParen, Plus, Value("1")]
    ensures PrefixBalanced(ts)
    ensures EvaluateSpec(ToRpnSpec(ts), NoBindings) == Ok(Apply("sin", [Apply("+", [Parsed("0"), Parsed("1")])]))
  {
    FunctionWaitsForEnd(ts);
    FunctionValue(ToRpnSpec(ts));
  }

  /** `1 2 -` applies `-` to the two operands in the order they were pushed. */
  lemma OperandsInPushOrder(rpn: seq<Token>)
    requires rpn == [Value("1"), Value("2"), Minus]
    ensures EvaluateSpec(rpn, NoBindings) == Ok(Apply("-", [Parsed("1"), Parsed("2")]))
  {
    var pushed := [Parsed("1"), Parsed("2")];
    assert RunPrefix(rpn, NoBindings, 0) == Ok([]);
    assert RunPrefix(rpn, NoBindings, 1).value == [Parsed("1")];
    assert RunPrefix(rpn, NoBindings, 2).value == pushed;
    assert pushed[..0] == [] && pushed[0..] == pushed;
    assert RunPrefix(rpn, NoBindings, 3).value == [Apply("-", pushed)];
  }

  /** `2 3 !` leaves two values, and the answer is the bottom one. */
  lemma BottomOfStack(rpn: seq<Token>)
    requires rpn == [Value("2"), Value("3"), Factorial]
    ensures EvaluateSpec(rpn, NoBindings) == Ok(Parsed("2"))
  {
    var pushed := [Parsed("2"), Parsed("3")];
    assert RunPrefix(rpn, NoBindings, 0) == Ok([]);
    assert RunPrefix(rpn, NoBindings, 1).value == [Parsed("2")];
    assert RunPrefix(rpn, NoBindings, 2).value == pushed;
    assert pushed[..1] == [Parsed("2")] && pushed[1..] == [Parsed("3")];
    assert RunPrefix(rpn, NoBindings, 3).value == [Parsed("2"), Apply("!", [Parsed("3")])];
  }

  /** `(-2)` converts to `2 -`, whose binary `-` finds one value only. */
  lemma MinusShortOfOperands(rpn: seq<Token>)
    requires rpn == [Value("2"), Minus]
    ensures EvaluateSpec(rpn, NoBindings) == Err(MissingOperands(1))
  {
    assert RunPrefix(rpn, NoBindings, 0) == Ok([]);
    assert RunPrefix(rpn, NoBindings, 1).value == [Parsed("2")];
  }
}
