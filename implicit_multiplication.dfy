/**
 * The implicit-multiplication rewrite that runs before scanning. Each of the
 * five rewrites (one `str.replace` and four `re.sub` calls) inserts `*` between
 * every adjacent pair of characters of one kind; the five run one after the
 * other. Over ASCII, inserting `*` at the boundary is exactly what each
 * replacement does, since no pattern can overlap itself across a match.
 */
module ImplicitMultiplication {
  import opened Tokens

  /** The five adjacencies that get a `*`. */
  datatype Rule =
    | CloseOpen     // `)(`
    | DigitLetter   // `(\d+)([a-zA-Z]+)`
    | LetterDigit   // `([a-zA-Z]+)(\d+)`
    | DigitOpen     // `(\d+)(\()`
    | CloseDigit    // `(\))(\d+)`

  predicate IsDigit(c: char) {
    '0' <= c <= '9'
  }

  /** Whether `rule` inserts a `*` between `a` and the `b` that follows it. */
  predicate Fires(rule: Rule, a: char, b: char) {
    match rule
    case CloseOpen => a == ')' && b == '('
    case DigitLetter => IsDigit(a) && IsLetter(b)
    case LetterDigit => IsLetter(a) && IsDigit(b)
    case DigitOpen => IsDigit(a) && b == '('
    case CloseDigit => a == ')' && IsDigit(b)
  }

  predicate FiresAny(rules: set<Rule>, a: char, b: char) {
    exists rule :: rule in rules && Fires(rule, a, b)
  }

  const AllRules: set<Rule> := {CloseOpen, DigitLetter, LetterDigit, DigitOpen, CloseDigit}

  /** An adjacency that implicit multiplication applies to. */
  predicate Implicit(a: char, b: char) {
    FiresAny(AllRules, a, b)
  }

  /** Inserts one `*` between every adjacent pair on which one of `rules` fires. */
  function InsertStars(s: string, rules: set<Rule>): string
    decreases |s|
  {
    if |s| <= 1 then s
    else [s[0]] + (if FiresAny(rules, s[0], s[1]) then "*" else "") + InsertStars(s[1..], rules)
  }

  /** `expand_implicit_expression`: the five rewrites in the source's order. */
  function ExpandImplicit(expression: string): (r: string)
    ensures r == InsertStars(expression, AllRules)
  {
    var s1 := InsertStars(expression, {CloseOpen});
    var s2 := InsertStars(s1, {DigitLetter});
    var s3 := InsertStars(s2, {LetterDigit});
    var s4 := InsertStars(s3, {DigitOpen});
    var s5 := InsertStars(s4, {CloseDigit});
    PassesCompose(expression, {CloseOpen}, {DigitLetter});
    PassesCompose(expression, {CloseOpen, DigitLetter}, {LetterDigit});
    PassesCompose(expression, {CloseOpen, DigitLetter, LetterDigit}, {DigitOpen});
    PassesCompose(expression, {CloseOpen, DigitLetter, LetterDigit, DigitOpen}, {CloseDigit});
    assert {CloseOpen} + {DigitLetter} == {CloseOpen, DigitLetter};
    assert {CloseOpen, DigitLetter} + {LetterDigit} == {CloseOpen, DigitLetter, LetterDigit};
    assert {CloseOpen, DigitLetter, LetterDigit} + {DigitOpen} == {CloseOpen, DigitLetter, LetterDigit, DigitOpen};
    assert {CloseOpen, DigitLetter, LetterDigit, DigitOpen} + {CloseDigit} == AllRules;
    s5
  }

  // ------------------------------------------------------------ composition

  /** No rule ever fires next to a `*`: inserted stars create no new adjacency. */
  lemma StarNeverFires(rules: set<Rule>, c: char)
    ensures !FiresAny(rules, c, '*') && !FiresAny(rules, '*', c)
  {
    forall rule | rule in rules
      ensures !Fires(rule, c, '*') && !Fires(rule, '*', c)
    {
      match rule
      case CloseOpen =>
      case DigitLetter =>
      case LetterDigit =>
      case DigitOpen =>
      case CloseDigit =>
    }
  }

  lemma {:induction false} InsertStarsHead(s: string, rules: set<Rule>)
    requires |s| > 0
    ensures |InsertStars(s, rules)| > 0 && InsertStars(s, rules)[0] == s[0]
  {
  }

  /** One unfolding of `InsertStars` on a string written as its first character and the rest. */
  lemma InsertStarsCons(c: char, t: string, rules: set<Rule>)
    requires |t| > 0
    ensures InsertStars([c] + t, rules)
         == [c] + (if FiresAny(rules, c, t[0]) then "*" else "") + InsertStars(t, rules)
  {
    assert ([c] + t)[1..] == t;
  }

  /** A rule set that fires on a pair keeps firing when more rules are added. */
  lemma FiresUnion(first: set<Rule>, second: set<Rule>, a: char, b: char)
    ensures FiresAny(first + second, a, b) == (FiresAny(first, a, b) || FiresAny(second, a, b))
  {
    if FiresAny(first, a, b) {
      var rule :| rule in first && Fires(rule, a, b);
      assert rule in first + second;
    }
    if FiresAny(second, a, b) {
      var rule :| rule in second && Fires(rule, a, b);
      assert rule in first + second;
    }
  }

  /** Running the passes for `first` and then `second` equals one pass for both. */
  lemma {:induction false} PassesCompose(s: string, first: set<Rule>, second: set<Rule>)
    ensures InsertStars(InsertStars(s, first), second) == InsertStars(s, first + second)
    decreases |s|
  {
    if |s| > 1 {
      var rest := s[1..];
      var t := InsertStars(rest, first);
      InsertStarsHead(rest, first);
      PassesCompose(rest, first, second);
      FiresUnion(first, second, s[0], s[1]);
      assert s == [s[0]] + rest;
      InsertStarsCons(s[0], rest, first);
      InsertStarsCons(s[0], rest, first + second);
      if FiresAny(first, s[0], s[1]) {
        StarNeverFires(second, s[0]);
        StarNeverFires(second, t[0]);
        InsertStarsCons('*', t, second);
        InsertStarsCons(s[0], ['*'] + t, second);
        assert InsertStars(s, first) == [s[0]] + (['*'] + t);
      } else {
        InsertStarsCons(s[0], t, second);
        assert InsertStars(s, first) == [s[0]] + t;
      }
    }
  }

  // ------------------------------------------------------------- properties

  /** The string with every `*` deleted. */
  function StripStars(s: string): string
  {
    if s == [] then [] else (if s[0] == '*' then [] else [s[0]]) + StripStars(s[1..])
  }

  function StarCount(s: string): nat
  {
    if s == [] then 0 else (if s[0] == '*' then 1 else 0) + StarCount(s[1..])
  }

  /** The number of adjacent pairs implicit multiplication applies to. */
  function Adjacencies(s: string): nat
  {
    if |s| <= 1 then 0 else (if Implicit(s[0], s[1]) then 1 else 0) + Adjacencies(s[1..])
  }

  /** No adjacent pair of `s` calls for an implicit `*`. */
  predicate NoAdjacency(s: string) {
    forall i :: 0 <= i < |s| - 1 ==> !Implicit(s[i], s[i + 1])
  }

  lemma {:induction false} StripAppend(a: string, b: string)
    ensures StripStars(a + b) == StripStars(a) + StripStars(b)
    ensures StarCount(a + b) == StarCount(a) + StarCount(b)
  {
    StripConcat(a, b);
    CountConcat(a, b);
  }

  lemma {:induction false} StripConcat(a: string, b: string)
    ensures StripStars(a + b) == StripStars(a) + StripStars(b)
    decreases |a|
  {
    if a == [] {
      assert a + b == b;
    } else {
      var head := if a[0] == '*' then [] else [a[0]];
      assert (a + b)[0] == a[0];
      assert (a + b)[1..] == a[1..] + b;
      StripConcat(a[1..], b);
      assert head + (StripStars(a[1..]) + StripStars(b)) == (head + StripStars(a[1..])) + StripStars(b);
    }
  }

  lemma {:induction false} CountConcat(a: string, b: string)
    ensures StarCount(a + b) == StarCount(a) + StarCount(b)
    decreases |a|
  {
    if a == [] {
      assert a + b == b;
    } else {
      assert (a + b)[0] == a[0];
      assert (a + b)[1..] == a[1..] + b;
      CountConcat(a[1..], b);
    }
  }

  /**
   * Deleting the inserted stars gives back the input, and the rewrite adds
   * exactly one character, a `*`, per adjacency.
   */
  lemma {:induction false} ExpandOnlyInsertsStars(s: string)
    ensures StripStars(ExpandImplicit(s)) == StripStars(s)
    ensures |ExpandImplicit(s)| == |s| + Adjacencies(s)
    ensures StarCount(ExpandImplicit(s)) == StarCount(s) + Adjacencies(s)
    decreases |s|
  {
    if |s| > 1 {
      ExpandOnlyInsertsStars(s[1..]);
      var star := if Implicit(s[0], s[1]) then "*" else "";
      var t := InsertStars(s[1..], AllRules);
      assert InsertStars(s, AllRules) == ([s[0]] + star) + t;
      StripAppend([s[0]] + star, t);
      StripAppend([s[0]], star);
      StripAppend([s[0]], s[1..]);
      assert s == [s[0]] + s[1..];
    }
  }

  /** After the rewrite no implicit adjacency is left. */
  lemma {:induction false} ExpandLeavesNoAdjacency(s: string)
    ensures NoAdjacency(ExpandImplicit(s))
    decreases |s|
  {
    if |s| > 1 {
      ExpandLeavesNoAdjacency(s[1..]);
      var t := InsertStars(s[1..], AllRules);
      InsertStarsHead(s[1..], AllRules);
      var r := InsertStars(s, AllRules);
      if Implicit(s[0], s[1]) {
        assert r == [s[0], '*'] + t;
        StarNeverFires(AllRules, s[0]);
        StarNeverFires(AllRules, t[0]);
        forall i | 0 <= i < |r| - 1 ensures !Implicit(r[i], r[i + 1]) {
          if i >= 2 {
            assert r[i] == t[i - 2] && r[i + 1] == t[i - 1];
          }
        }
      } else {
        assert r == [s[0]] + t;
        forall i | 0 <= i < |r| - 1 ensures !Implicit(r[i], r[i + 1]) {
          if i >= 1 {
            assert r[i] == t[i - 1] && r[i + 1] == t[i];
          }
        }
      }
    }
  }

  /** An expression without implicit adjacencies is left as it is. */
  lemma {:induction false} ExpandKeepsExplicit(s: string)
    requires NoAdjacency(s)
    ensures ExpandImplicit(s) == s
    decreases |s|
  {
    if |s| > 1 {
      assert !Implicit(s[0], s[1]);
      assert NoAdjacency(s[1..]) by {
        forall i | 0 <= i < |s[1..]| - 1 ensures !Implicit(s[1..][i], s[1..][i + 1]) {
          assert s[1..][i] == s[i + 1] && s[1..][i + 1] == s[i + 2];
        }
      }
      ExpandKeepsExplicit(s[1..]);
      assert s == [s[0]] + s[1..];
    }
  }

  /** The rewrite is idempotent. */
  lemma ExpandIdempotent(s: string)
    ensures ExpandImplicit(ExpandImplicit(s)) == ExpandImplicit(s)
  {
    ExpandLeavesNoAdjacency(s);
    ExpandKeepsExplicit(ExpandImplicit(s));
  }
}
