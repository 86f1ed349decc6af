/**
 * What the conversion keeps: on balanced token lists the output has no
 * parentheses, holds every other input token exactly once, and lists the
 * operands in their input order.
 */
module RpnProperties {
  import opened Tokens
  import opened Tokenizer
  import opened Rpn

  /** The operand tokens of a list, in order. */
  function Operands(ts: seq<Token>): seq<Token>
  {
    if ts == [] then []
    else Operands(ts[..|ts| - 1]) + (if IsOperand(ts[|ts| - 1]) then [ts[|ts| - 1]] else [])
  }

  /** The tokens of a list other than `(` and `)`, in order. */
  function NonParens(ts: seq<Token>): seq<Token>
  {
    if ts == [] then []
    else NonParens(ts[..|ts| - 1]) + (if IsParen(ts[|ts| - 1]) then [] else [ts[|ts| - 1]])
  }

  lemma ViewsAppend(ts: seq<Token>, t: Token)
    ensures Operands(ts + [t]) == Operands(ts) + (if IsOperand(t) then [t] else [])
    ensures NonParens(ts + [t]) == NonParens(ts) + (if IsParen(t) then [] else [t])
    ensures VarSymbols(ts + [t]) == VarSymbols(ts) + (if t.Variable? then {t.symbol} else {})
  {
    assert (ts + [t])[..|ts|] == ts;
  }

  /**
   * The conversion invariant after reading `prefix`: the queue has no
   * parentheses, the stack holds only `(`, functions and operators, together
   * they hold the non-parenthesis tokens read so far, and the queue already
   * lists every operand read so far, in order.
   */
  predicate Accounts(queue: seq<Token>, stack: seq<Token>, prefix: seq<Token>) {
    && NoParens(queue)
    && AllStackable(stack)
    && multiset(queue) + multiset(NonParens(stack)) == multiset(NonParens(prefix))
    && Operands(queue) == Operands(prefix)
  }

  predicate NoParens(ts: seq<Token>) {
    forall i :: 0 <= i < |ts| ==> !IsParen(ts[i])
  }

  predicate AllStackable(ts: seq<Token>) {
    forall i :: 0 <= i < |ts| ==> Stackable(ts[i])
  }

  lemma NoParensAppend(ts: seq<Token>, t: Token)
    requires NoParens(ts) && !IsParen(t)
    ensures NoParens(ts + [t])
  {
    assert forall i :: 0 <= i < |ts| ==> (ts + [t])[i] == ts[i];
  }

  lemma StackableAppend(ts: seq<Token>, t: Token)
    requires AllStackable(ts) && Stackable(t)
    ensures AllStackable(ts + [t])
  {
    assert forall i :: 0 <= i < |ts| ==> (ts + [t])[i] == ts[i];
  }

  /** Popping a function or operator onto the queue. */
  lemma MoveTop(queue: seq<Token>, stack: seq<Token>, prefix: seq<Token>)
    requires Accounts(queue, stack, prefix) && stack != [] && !stack[|stack| - 1].OpenParen?
    ensures Accounts(queue + [stack[|stack| - 1]], stack[..|stack| - 1], prefix)
  {
    var x := stack[|stack| - 1];
    assert Stackable(x);
    ViewsAppend(queue, x);
    NoParensAppend(queue, x);
    StackablePrefix(stack);
    TallyMove(queue, stack);
  }

  lemma StackablePrefix(ts: seq<Token>)
    requires AllStackable(ts) && ts != []
    ensures AllStackable(ts[..|ts| - 1])
  {
    assert forall i :: 0 <= i < |ts| - 1 ==> ts[..|ts| - 1][i] == ts[i];
  }

  lemma TallyMove(queue: seq<Token>, stack: seq<Token>)
    requires stack != [] && !IsParen(stack[|stack| - 1])
    ensures multiset(queue + [stack[|stack| - 1]]) + multiset(NonParens(stack[..|stack| - 1]))
         == multiset(queue) + multiset(NonParens(stack))
  {
    var x := stack[|stack| - 1];
    assert NonParens(stack) == NonParens(stack[..|stack| - 1]) + [x];
    assert multiset(queue + [x]) == multiset(queue) + multiset([x]);
    assert multiset(NonParens(stack)) == multiset(NonParens(stack[..|stack| - 1])) + multiset([x]);
  }

  /** Popping the `(` a `)` closes. */
  lemma DropOpen(queue: seq<Token>, stack: seq<Token>, prefix: seq<Token>)
    requires Accounts(queue, stack, prefix) && stack != [] && stack[|stack| - 1].OpenParen?
    ensures Accounts(queue, stack[..|stack| - 1], prefix + [CloseParen])
  {
    ViewsAppend(prefix, CloseParen);
    assert NonParens(stack) == NonParens(stack[..|stack| - 1]);
  }

  /** The multiset of non-parenthesis tokens grows by the appended token unless it is a parenthesis. */
  lemma TallyAppend(ts: seq<Token>, t: Token)
    ensures IsParen(t) ==> multiset(NonParens(ts + [t])) == multiset(NonParens(ts))
    ensures !IsParen(t) ==> multiset(NonParens(ts + [t])) == multiset(NonParens(ts)) + multiset{t}
  {
    ViewsAppend(ts, t);
    if !IsParen(t) {
      assert multiset(NonParens(ts) + [t]) == multiset(NonParens(ts)) + multiset{t};
    }
  }

  lemma PushKeeps(queue: seq<Token>, stack: seq<Token>, prefix: seq<Token>, t: Token)
    requires Accounts(queue, stack, prefix) && Stackable(t)
    ensures Accounts(queue, stack + [t], prefix + [t])
  {
    ViewsAppend(prefix, t);
    assert Operands(prefix + [t]) == Operands(prefix);
    StackableAppend(stack, t);
    PushTally(multiset(queue), stack, prefix, t);
  }

  lemma PushTally(queued: multiset<Token>, stack: seq<Token>, prefix: seq<Token>, t: Token)
    requires queued + multiset(NonParens(stack)) == multiset(NonParens(prefix))
    ensures queued + multiset(NonParens(stack + [t])) == multiset(NonParens(prefix + [t]))
  {
    TallyAppend(stack, t);
    TallyAppend(prefix, t);
    if !IsParen(t) {
      var held := multiset(NonParens(stack));
      assert queued + (held + multiset{t}) == (queued + held) + multiset{t};
    }
  }

  lemma EnqueueKeeps(queue: seq<Token>, stack: seq<Token>, prefix: seq<Token>, t: Token)
    requires Accounts(queue, stack, prefix) && IsOperand(t)
    ensures Accounts(queue + [t], stack, prefix + [t])
  {
    ViewsAppend(prefix, t);
    ViewsAppend(queue, t);
    NoParensAppend(queue, t);
    EnqueueTally(queue, multiset(NonParens(stack)), prefix, t);
  }

  lemma EnqueueTally(queue: seq<Token>, held: multiset<Token>, prefix: seq<Token>, t: Token)
    requires multiset(queue) + held == multiset(NonParens(prefix)) && !IsParen(t)
    ensures multiset(queue + [t]) + held == multiset(NonParens(prefix + [t]))
  {
    TallyAppend(prefix, t);
    var before := multiset(queue);
    assert multiset(queue + [t]) == before + multiset{t};
    assert (before + multiset{t}) + held == (before + held) + multiset{t};
  }

  lemma {:induction false} PopOperatorsKeeps(queue: seq<Token>, stack: seq<Token>, token: Token, prefix: seq<Token>)
    requires token.Operator? && Accounts(queue, stack, prefix)
    ensures Accounts(PopOperators(queue, stack, token).0, PopOperators(queue, stack, token).1, prefix)
    decreases |stack|
  {
    if stack != [] && stack[|stack| - 1].Operator? && HasHigherPrecedence(token, stack[|stack| - 1]) {
      MoveTop(queue, stack, prefix);
      PopOperatorsKeeps(queue + [stack[|stack| - 1]], stack[..|stack| - 1], token, prefix);
    }
  }

  lemma {:induction false} PopToOpenKeeps(queue: seq<Token>, stack: seq<Token>, prefix: seq<Token>)
    requires OpenCount(stack) > 0 && Accounts(queue, stack, prefix)
    ensures Accounts(PopToOpen(queue, stack).0, PopToOpen(queue, stack).1, prefix + [CloseParen])
    decreases |stack|
  {
    if stack[|stack| - 1].OpenParen? {
      DropOpen(queue, stack, prefix);
    } else {
      MoveTop(queue, stack, prefix);
      PopToOpenKeeps(queue + [stack[|stack| - 1]], stack[..|stack| - 1], prefix);
    }
  }

  lemma StepAccounts(sh: Shunt, t: Token, prefix: seq<Token>)
    requires Accounts(sh.queue, sh.stack, prefix) && (t.CloseParen? ==> OpenCount(sh.stack) > 0)
    ensures Accounts(ShuntStep(sh, t).queue, ShuntStep(sh, t).stack, prefix + [t])
  {
    if IsOperand(t) {
      EnqueueKeeps(sh.queue, sh.stack, prefix, t);
    } else if t.OpenParen? || t.Function? {
      PushKeeps(sh.queue, sh.stack, prefix, t);
    } else if t.Operator? {
      PopOperatorsKeeps(sh.queue, sh.stack, t, prefix);
      var (q, s) := PopOperators(sh.queue, sh.stack, t);
      PushKeeps(q, s, prefix, t);
    } else {
      PopToOpenKeeps(sh.queue, sh.stack, prefix);
    }
  }

  lemma {:induction false} ShuntAccounts(ts: seq<Token>, k: nat)
    requires k <= |ts| && PrefixBalanced(ts)
    ensures Accounts(ShuntPrefix(ts, k).queue, ShuntPrefix(ts, k).stack, ts[..k])
  {
    if k == 0 {
      assert NonParens([]) == [];
    } else {
      ShuntAccounts(ts, k - 1);
      assert ts[..k] == ts[..k - 1] + [ts[k - 1]];
      StepAccounts(ShuntPrefix(ts, k - 1), ts[k - 1], ts[..k - 1]);
    }
  }

  /** The final `while stack` loop, once no `(` is left. */
  lemma {:induction false} DrainAccounts(queue: seq<Token>, stack: seq<Token>, prefix: seq<Token>)
    requires Accounts(queue, stack, prefix) && OpenCount(stack) == 0
    ensures Accounts(Drain(queue, stack), [], prefix)
    decreases |stack|
  {
    if stack != [] {
      MoveTop(queue, stack, prefix);
      DrainAccounts(queue + [stack[|stack| - 1]], stack[..|stack| - 1], prefix);
    }
  }

  /**
   * On a token list that leaves no `(` open, the output has no parentheses and
   * is a permutation of the input without its parentheses.
   */
  lemma ToRpnPermutes(ts: seq<Token>)
    requires PrefixBalanced(ts) && TokenDepth(ts) == 0
    ensures forall i :: 0 <= i < |ToRpnSpec(ts)| ==> !IsParen(ToRpnSpec(ts)[i])
    ensures multiset(ToRpnSpec(ts)) == multiset(NonParens(ts))
  {
    ShuntAccounts(ts, |ts|);
    assert ts[..|ts|] == ts;
    var sh := ShuntPrefix(ts, |ts|);
    DrainAccounts(sh.queue, sh.stack, ts);
  }

  /** Operands (values, variables, constants) leave in the order they arrived. */
  lemma ToRpnKeepsOperandOrder(ts: seq<Token>)
    requires PrefixBalanced(ts) && TokenDepth(ts) == 0
    ensures Operands(ToRpnSpec(ts)) == Operands(ts)
  {
    ShuntAccounts(ts, |ts|);
    assert ts[..|ts|] == ts;
    var sh := ShuntPrefix(ts, |ts|);
    DrainAccounts(sh.queue, sh.stack, ts);
  }

  /** The variable names of a list are those of its operands. */
  lemma {:induction false} VarSymbolsOfOperands(ts: seq<Token>)
    ensures VarSymbols(Operands(ts)) == VarSymbols(ts)
  {
    if ts != [] {
      var init := ts[..|ts| - 1];
      var t := ts[|ts| - 1];
      VarSymbolsOfOperands(init);
      assert ts == init + [t];
      ViewsAppend(init, t);
      if IsOperand(t) {
        assert Operands(ts) == Operands(init) + [t];
        ViewsAppend(Operands(init), t);
      } else {
        assert Operands(ts) == Operands(init);
        assert !t.Variable?;
      }
    }
  }

  /** The output mentions exactly the variables of the input. */
  lemma ToRpnKeepsVariables(ts: seq<Token>)
    requires PrefixBalanced(ts) && TokenDepth(ts) == 0
    ensures VarSymbols(ToRpnSpec(ts)) == VarSymbols(ts)
  {
    ToRpnKeepsOperandOrder(ts);
    VarSymbolsOfOperands(ts);
    VarSymbolsOfOperands(ToRpnSpec(ts));
  }
}
