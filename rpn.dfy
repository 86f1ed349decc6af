/**
 * The shunting-yard conversion of `Expression._convert_to_rpn`, identical in
 * the current and the older `Expression`: operands go straight to the output
 * queue, `(` and functions are pushed, an operator first pops the operators
 * that bind at least as tightly, `)` pops down to its `(`, and the end of the
 * input flushes the stack.
 */
module Rpn {
  import opened Tokens
  import opened Tokenizer

  // ------------------------------------------------------------- pop rule

  /**
   * `_has_operator_higher_precedence(token, top)`. Python reads
   * `A or (B and C) and D` as `A or ((B and C) and D)`; the last conjunct, `top`
   * not being `(`, always holds because the rule is only applied to operator tops.
   */
  predicate HasHigherPrecedence(token: Token, top: Token): (r: bool)
    requires token.Operator? && top.Operator?
    ensures top.precedence > token.precedence ==> r
    ensures top.precedence < token.precedence ==> !r
    ensures top.precedence == token.precedence ==> (r <==> top.assoc == Left)
  {
    top.precedence > token.precedence || (top.precedence == token.precedence && top.assoc == Left && !top.OpenParen?)
  }

  /** Tokens that can sit on the operator stack. */
  predicate Stackable(t: Token) {
    t.OpenParen? || t.Function? || t.Operator?
  }

  predicate IsParen(t: Token) {
    t.OpenParen? || t.CloseParen?
  }

  /** The order in which a stack (top last) is emptied by repeated `pop`. */
  function Reversed(s: seq<Token>): seq<Token>
  {
    if s == [] then [] else [s[|s| - 1]] + Reversed(s[..|s| - 1])
  }

  /** Number of `(` on a stack. */
  function OpenCount(s: seq<Token>): nat
  {
    if s == [] then 0 else OpenCount(s[..|s| - 1]) + (if s[|s| - 1].OpenParen? then 1 else 0)
  }

  /** The inner `while` of an incoming operator: operator tops that take precedence move to the queue. */
  function PopOperators(queue: seq<Token>, stack: seq<Token>, token: Token): (seq<Token>, seq<Token>)
    requires token.Operator?
    decreases |stack|
  {
    if stack != [] && stack[|stack| - 1].Operator? && HasHigherPrecedence(token, stack[|stack| - 1]) then
      PopOperators(queue + [stack[|stack| - 1]], stack[..|stack| - 1], token)
    else
      (queue, stack)
  }

  /**
   * What `PopOperators` moves: a run of tokens at the top of the stack, appended
   * to the queue in pop order.
   */
  lemma {:induction false} PopOperatorsShape(queue: seq<Token>, stack: seq<Token>, token: Token)
    requires token.Operator?
    ensures |PopOperators(queue, stack, token).1| <= |stack|
    ensures PopOperators(queue, stack, token).1 == stack[..|PopOperators(queue, stack, token).1|]
    ensures PopOperators(queue, stack, token).0 == queue + Reversed(stack[|PopOperators(queue, stack, token).1|..])
    decreases |stack|
  {
    if stack != [] && stack[|stack| - 1].Operator? && HasHigherPrecedence(token, stack[|stack| - 1]) {
      var top := stack[|stack| - 1];
      var rest := stack[..|stack| - 1];
      assert PopOperators(queue, stack, token) == PopOperators(queue + [top], rest, token);
      PopOperatorsShape(queue + [top], rest, token);
      var s := PopOperators(queue + [top], rest, token).1;
      assert rest[..|s|] == stack[..|s|];
      assert stack[|s|..] == rest[|s|..] + [top];
      RevAppend(rest[|s|..], top);
    } else {
      assert stack[|stack|..] == [];
    }
  }

  /**
   * Every token `PopOperators` moves is an operator that takes precedence over
   * `token`, and the token it stops at (if any) is not an operator or does not.
   */
  lemma {:induction false} PopOperatorsRule(queue: seq<Token>, stack: seq<Token>, token: Token)
    requires token.Operator?
    ensures var s := PopOperators(queue, stack, token).1;
      && |s| <= |stack|
      && (forall i :: |s| <= i < |stack| ==> stack[i].Operator? && HasHigherPrecedence(token, stack[i]))
      && (s != [] ==> !s[|s| - 1].Operator? || !HasHigherPrecedence(token, s[|s| - 1]))
    decreases |stack|
  {
    if stack != [] && stack[|stack| - 1].Operator? && HasHigherPrecedence(token, stack[|stack| - 1]) {
      var rest := stack[..|stack| - 1];
      PopOperatorsRule(queue + [stack[|stack| - 1]], rest, token);
      PopOperatorsShape(queue + [stack[|stack| - 1]], rest, token);
      var s := PopOperators(queue, stack, token).1;
      forall i | |s| <= i < |stack| ensures stack[i].Operator? && HasHigherPrecedence(token, stack[i]) {
        if i < |rest| {
          assert stack[i] == rest[i];
        }
      }
    }
  }

  lemma RevAppend(s: seq<Token>, t: Token)
    ensures Reversed(s + [t]) == [t] + Reversed(s)
  {
    assert (s + [t])[..|s|] == s;
  }

  /** The inner `while` of `)`: pop to the queue down to the nearest `(`, then discard it. */
  function PopToOpen(queue: seq<Token>, stack: seq<Token>): (seq<Token>, seq<Token>)
    requires OpenCount(stack) > 0
    decreases |stack|
  {
    if stack[|stack| - 1].OpenParen? then
      (queue, stack[..|stack| - 1])
    else
      PopToOpen(queue + [stack[|stack| - 1]], stack[..|stack| - 1])
  }

  /** `PopToOpen` keeps the stack below the nearest `(`, which sits just under what it popped. */
  lemma {:induction false} PopToOpenStack(queue: seq<Token>, stack: seq<Token>)
    requires OpenCount(stack) > 0
    ensures var s := PopToOpen(queue, stack).1;
      |s| < |stack| && s == stack[..|s|] && stack[|s|].OpenParen?
    decreases |stack|
  {
    var top := stack[|stack| - 1];
    var rest := stack[..|stack| - 1];
    if !top.OpenParen? {
      PopToOpenStack(queue + [top], rest);
      var s := PopToOpen(queue + [top], rest).1;
      assert rest[..|s|] == stack[..|s|] && stack[|s|] == rest[|s|];
    }
  }

  /**
   * What `PopToOpen` moves: everything above the nearest `(`, in pop order;
   * that `(` is dropped and the ones below it stay.
   */
  lemma {:induction false} PopToOpenShape(queue: seq<Token>, stack: seq<Token>)
    requires OpenCount(stack) > 0
    ensures var s := PopToOpen(queue, stack).1;
      && |s| < |stack| && s == stack[..|s|] && stack[|s|].OpenParen?
      && PopToOpen(queue, stack).0 == queue + Reversed(stack[|s| + 1..])
    decreases |stack|
  {
    PopToOpenStack(queue, stack);
    var top := stack[|stack| - 1];
    var rest := stack[..|stack| - 1];
    if top.OpenParen? {
      assert stack[|rest| + 1..] == [];
    } else {
      PopToOpenShape(queue + [top], rest);
      var s := PopToOpen(queue + [top], rest).1;
      var above := rest[|s| + 1..];
      assert stack[|s| + 1..] == above + [top];
      RevAppend(above, top);
      assert (queue + [top]) + Reversed(above) == queue + ([top] + Reversed(above));
    }
  }

  /** `PopToOpen` stops at the nearest `(`: it removes exactly one. */
  lemma {:induction false} PopToOpenNearest(queue: seq<Token>, stack: seq<Token>)
    requires OpenCount(stack) > 0
    ensures var s := PopToOpen(queue, stack).1;
      && |s| < |stack|
      && (forall i :: |s| < i < |stack| ==> !stack[i].OpenParen?)
      && OpenCount(s) == OpenCount(stack) - 1
    decreases |stack|
  {
    var top := stack[|stack| - 1];
    var rest := stack[..|stack| - 1];
    if !top.OpenParen? {
      PopToOpenNearest(queue + [top], rest);
      PopToOpenStack(queue + [top], rest);
      var s := PopToOpen(queue, stack).1;
      forall i | |s| < i < |stack| ensures !stack[i].OpenParen? {
        if i < |rest| {
          assert stack[i] == rest[i];
        }
      }
    }
  }

  // ---------------------------------------------------------- the fold

  datatype Shunt = Shunt(queue: seq<Token>, stack: seq<Token>)

  /** One iteration of the `for token in self.tokens` loop. */
  function ShuntStep(sh: Shunt, t: Token): Shunt
    requires t.CloseParen? ==> OpenCount(sh.stack) > 0
  {
    if IsOperand(t) then sh.(queue := sh.queue + [t])
    else if t.OpenParen? || t.Function? then sh.(stack := sh.stack + [t])
    else if t.Operator? then
      var (q, s) := PopOperators(sh.queue, sh.stack, t);
      Shunt(q, s + [t])
    else
      var (q, s) := PopToOpen(sh.queue, sh.stack);
      Shunt(q, s)
  }

  lemma OpenCountPush(s: seq<Token>, t: Token)
    ensures OpenCount(s + [t]) == OpenCount(s) + (if t.OpenParen? then 1 else 0)
  {
    assert (s + [t])[..|s|] == s;
  }

  /** Open parentheses survive `PopOperators`: only operators are moved. */
  lemma OpenCountPrefix(s: seq<Token>, j: nat)
    requires j <= |s| && forall i :: j <= i < |s| ==> !s[i].OpenParen?
    ensures OpenCount(s[..j]) == OpenCount(s)
    decreases |s| - j
  {
    if j < |s| {
      OpenCountPrefix(s, j + 1);
      assert s[..j + 1][..j] == s[..j];
    } else {
      assert s[..j] == s;
    }
  }

  /**
   * The state after the first `k` tokens. On input whose prefixes never close
   * more than they open, the stack holds exactly as many `(` as the prefix
   * leaves open, so every `)` finds its `(` and the `)` loop never runs off the
   * bottom of the stack.
   */
  function ShuntPrefix(ts: seq<Token>, k: nat): (sh: Shunt)
    requires k <= |ts| && PrefixBalanced(ts)
    ensures OpenCount(sh.stack) == TokenDepth(ts[..k])
  {
    if k == 0 then Shunt([], [])
    else
      var prev := ShuntPrefix(ts, k - 1);
      var t := ts[k - 1];
      assert ts[..k][..k - 1] == ts[..k - 1];
      assert TokenDepth(ts[..k]) >= 0;
      var next := ShuntStep(prev, t);
      StepOpenCount(prev, t);
      next
  }

  lemma StepOpenCount(sh: Shunt, t: Token)
    requires t.CloseParen? ==> OpenCount(sh.stack) > 0
    ensures OpenCount(ShuntStep(sh, t).stack) == OpenCount(sh.stack) + DepthChange(t)
  {
    if t.Operator? {
      PopOperatorsShape(sh.queue, sh.stack, t);
      PopOperatorsRule(sh.queue, sh.stack, t);
      var (q, s) := PopOperators(sh.queue, sh.stack, t);
      OpenCountPrefix(sh.stack, |s|);
      OpenCountPush(s, t);
    } else if t.OpenParen? || t.Function? {
      OpenCountPush(sh.stack, t);
    } else if t.CloseParen? {
      PopToOpenNearest(sh.queue, sh.stack);
    }
  }

  /** The final `while stack` loop: pop everything onto the queue. */
  function Drain(queue: seq<Token>, stack: seq<Token>): seq<Token>
    decreases |stack|
  {
    if stack == [] then queue else Drain(queue + [stack[|stack| - 1]], stack[..|stack| - 1])
  }

  /** The flush appends the stack in pop order, top first. */
  lemma {:induction false} DrainReverses(queue: seq<Token>, stack: seq<Token>)
    ensures Drain(queue, stack) == queue + Reversed(stack)
    decreases |stack|
  {
    if stack == [] {
      assert queue + [] == queue;
    } else {
      var x := stack[|stack| - 1];
      var rest := stack[..|stack| - 1];
      DrainReverses(queue + [x], rest);
      assert (queue + [x]) + Reversed(rest) == queue + ([x] + Reversed(rest));
    }
  }

  /** `_convert_to_rpn` as a function of the token list. */
  function ToRpnSpec(ts: seq<Token>): seq<Token>
    requires PrefixBalanced(ts)
  {
    var sh := ShuntPrefix(ts, |ts|);
    Drain(sh.queue, sh.stack)
  }

  /** `Expression._convert_to_rpn` (the same in both versions). */
  method ToRpn(tokens: seq<Token>) returns (rpn: seq<Token>)
    requires PrefixBalanced(tokens)
    ensures rpn == ToRpnSpec(tokens)
  {
    var queue: seq<Token> := [];
    var stack: seq<Token> := [];
    for i := 0 to |tokens|
      invariant ShuntPrefix(tokens, i) == Shunt(queue, stack)
    {
      var token := tokens[i];
      assert tokens[..i + 1][..i] == tokens[..i];
      assert ShuntPrefix(tokens, i + 1) == ShuntStep(Shunt(queue, stack), token);
      if IsOperand(token) {
        queue := queue + [token];
      } else if token.OpenParen? || token.Function? {
        stack := stack + [token];
      } else if token.Operator? {
        queue, stack := PushOperator(queue, stack, token);
      } else {
        queue, stack := CloseGroup(queue, stack);
      }
    }
    while stack != []
      invariant Drain(queue, stack) == ToRpnSpec(tokens)
      decreases |stack|
    {
      queue := queue + [stack[|stack| - 1]];
      stack := stack[..|stack| - 1];
    }
    rpn := queue;
  }

  /** An incoming operator: pop while the top takes precedence, then push it. */
  method PushOperator(queue0: seq<Token>, stack0: seq<Token>, token: Token) returns (queue: seq<Token>, stack: seq<Token>)
    requires token.Operator?
    ensures Shunt(queue, stack) == ShuntStep(Shunt(queue0, stack0), token)
  {
    queue, stack := queue0, stack0;
    while stack != [] && stack[|stack| - 1].Operator? && HasHigherPrecedence(token, stack[|stack| - 1])
      invariant PopOperators(queue, stack, token) == PopOperators(queue0, stack0, token)
      decreases |stack|
    {
      queue := queue + [stack[|stack| - 1]];
      stack := stack[..|stack| - 1];
    }
    stack := stack + [token];
  }

  /** A `)`: pop down to the nearest `(` and discard it. */
  method CloseGroup(queue0: seq<Token>, stack0: seq<Token>) returns (queue: seq<Token>, stack: seq<Token>)
    requires OpenCount(stack0) > 0
    ensures Shunt(queue, stack) == ShuntStep(Shunt(queue0, stack0), CloseParen)
  {
    queue, stack := queue0, stack0;
    while !stack[|stack| - 1].OpenParen?
      invariant OpenCount(stack) > 0
      invariant PopToOpen(queue, stack) == PopToOpen(queue0, stack0)
      decreases |stack|
    {
      queue := queue + [stack[|stack| - 1]];
      stack := stack[..|stack| - 1];
    }
    stack := stack[..|stack| - 1];
  }
}
