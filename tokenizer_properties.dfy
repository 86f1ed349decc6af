/**
 * What the tokenizer promises, proved of its specification functions: the
 * first structural error it reports, what its tokens say about the rewritten
 * text (order of parentheses and operators, literal text, variables), where
 * unary minus appears, and that its output never closes an unopened
 * parenthesis.
 */
module TokenizerProperties {
  import opened Results
  import opened Tokens
  import opened ImplicitMultiplication
  import opened Tokenizer

  // ------------------------------------------------------ views of the text

  /** Parentheses and operator characters: the characters that emit a token by themselves. */
  predicate IsStructuralChar(c: char) {
    c == '(' || c == ')' || IsOperatorChar(c)
  }

  /** The structural characters of `e`, in order. */
  function StructuralChars(e: string): string
  {
    if e == [] then []
    else StructuralChars(e[..|e| - 1]) + (if IsStructuralChar(e[|e| - 1]) then [e[|e| - 1]] else [])
  }

  /** The literal characters (digits, `.`, letters) of `e`, in order. */
  function LiteralChars(e: string): string
  {
    if e == [] then []
    else LiteralChars(e[..|e| - 1]) + (if IsLiteralChar(e[|e| - 1]) then [e[|e| - 1]] else [])
  }

  function CharChange(c: char): int {
    if c == '(' then 1 else if c == ')' then -1 else 0
  }

  /** Parenthesis depth of a text: `(` minus `)`. */
  function CharDepth(e: string): int
  {
    if e == [] then 0 else CharDepth(e[..|e| - 1]) + CharChange(e[|e| - 1])
  }

  /** The error the loop raises at position `p` when the check at `p` fails. */
  function FaultAt(e: string, p: nat): TokenizeError
    requires p < |e|
  {
    if UnexpectedAt(e, p) then UnexpectedCharacter(p) else UnmatchingCloseParentheses(p)
  }

  /** Position `p` fails a check: an unexpected character, or more `)` than `(` up to and including `p`. */
  predicate Faulty(e: string, p: nat)
    requires p < |e|
  {
    UnexpectedAt(e, p) || CharDepth(e[..p + 1]) < 0
  }

  /** No position before `k` fails a check. */
  predicate FaultFree(e: string, k: nat)
    requires k <= |e|
  {
    forall p :: 0 <= p < k ==> !Faulty(e, p)
  }

  lemma CharViewsStep(e: string, p: nat)
    requires p < |e|
    ensures StructuralChars(e[..p + 1]) == StructuralChars(e[..p]) + (if IsStructuralChar(e[p]) then [e[p]] else [])
    ensures LiteralChars(e[..p + 1]) == LiteralChars(e[..p]) + (if IsLiteralChar(e[p]) then [e[p]] else [])
    ensures CharDepth(e[..p + 1]) == CharDepth(e[..p]) + CharChange(e[p])
  {
    assert e[..p + 1][..p] == e[..p];
  }

  // ---------------------------------------------------- views of the tokens

  lemma TokenViewsAppend(ts: seq<Token>, t: Token)
    ensures LiteralText(ts + [t]) == LiteralText(ts) + LiteralOf(t)
    ensures Structure(ts + [t]) == Structure(ts) + StructChar(t)
    ensures VarSymbols(ts + [t]) == VarSymbols(ts) + (if t.Variable? then {t.symbol} else {})
    ensures TokenDepth(ts + [t]) == TokenDepth(ts) + DepthChange(t)
  {
    assert (ts + [t])[..|ts|] == ts;
  }

  lemma BalancedAppend(ts: seq<Token>, t: Token)
    requires PrefixBalanced(ts) && TokenDepth(ts) + DepthChange(t) >= 0
    ensures PrefixBalanced(ts + [t])
  {
    TokenViewsAppend(ts, t);
    forall j | 0 <= j <= |ts + [t]| ensures TokenDepth((ts + [t])[..j]) >= 0 {
      if j <= |ts| {
        assert (ts + [t])[..j] == ts[..j];
      } else {
        assert (ts + [t])[..j] == ts + [t];
      }
    }
  }

  /** Every `-` token is unary exactly when it is first or follows an operator. */
  predicate UnaryMinusPlaced(ts: seq<Token>) {
    forall i :: 0 <= i < |ts| ==> MinusPlacedAt(ts, i)
  }

  /** A `-` token at `i` is unary exactly when it is first or follows an operator. */
  predicate MinusPlacedAt(ts: seq<Token>, i: nat)
    requires i < |ts|
  {
    ts[i].Operator? && StructChar(ts[i]) == "-" ==> (ts[i].symbol == "-u" <==> i == 0 || ts[i - 1].Operator?)
  }

  predicate AllRegistered(ts: seq<Token>) {
    forall i :: 0 <= i < |ts| ==> Registered(ts[i])
  }

  /** While scanning, every literal token is followed by a non-literal one. */
  predicate LiteralsFollowed(ts: seq<Token>) {
    forall i :: 0 <= i < |ts| && IsLiteralToken(ts[i]) ==> i + 1 < |ts| && !IsLiteralToken(ts[i + 1])
  }

  /** No two literal tokens are adjacent. */
  predicate LiteralsSeparated(ts: seq<Token>) {
    forall i :: 0 <= i < |ts| - 1 && IsLiteralToken(ts[i]) ==> !IsLiteralToken(ts[i + 1])
  }

  /** Facts about the token list that hold whatever the text (before and after the last flush). */
  predicate TokensInvariant(st: Scan) {
    && st.level == TokenDepth(st.tokens)
    && PrefixBalanced(st.tokens)
    && st.variables == VarSymbols(st.tokens)
    && UnaryMinusPlaced(st.tokens)
    && AllRegistered(st.tokens)
  }

  /** The loop invariant after `k` characters of `e`. */
  predicate ScanInvariant(e: string, k: nat, st: Scan)
    requires k <= |e|
  {
    && TokensInvariant(st)
    && LiteralsFollowed(st.tokens)
    && Structure(st.tokens) == StructuralChars(e[..k])
    && LiteralText(st.tokens) + st.pending == LiteralChars(e[..k])
  }

  // ------------------------------------------------------- step preservation

  /** Appending one token keeps the token facts when it is placed as the tokenizer places it. */
  lemma AppendKeeps(st: Scan, t: Token, r: Scan)
    requires TokensInvariant(st) && Registered(t)
    requires r.tokens == st.tokens + [t] && r.level == st.level + DepthChange(t) && r.level >= 0
    requires r.variables == st.variables + (if t.Variable? then {t.symbol} else {})
    requires t.Operator? && StructChar(t) == "-" ==>
      (t.symbol == "-u" <==> st.tokens == [] || st.tokens[|st.tokens| - 1].Operator?)
    ensures TokensInvariant(r)
  {
    TokenViewsAppend(st.tokens, t);
    BalancedAppend(st.tokens, t);
    UnaryMinusAppend(st.tokens, t);
    assert forall i :: 0 <= i < |st.tokens| ==> r.tokens[i] == st.tokens[i];
  }

  lemma UnaryMinusAppend(ts: seq<Token>, t: Token)
    requires UnaryMinusPlaced(ts)
    requires t.Operator? && StructChar(t) == "-" ==> (t.symbol == "-u" <==> ts == [] || ts[|ts| - 1].Operator?)
    ensures UnaryMinusPlaced(ts + [t])
  {
    var us := ts + [t];
    forall i | 0 <= i < |us|
      ensures MinusPlacedAt(us, i)
    {
      if i < |ts| {
        assert MinusPlacedAt(ts, i);
        assert us[i] == ts[i];
        if i > 0 {
          assert us[i - 1] == ts[i - 1];
        }
      } else if i > 0 {
        assert us[i - 1] == ts[|ts| - 1];
      }
    }
  }

  /** Dealing with the pending literal adds no structure and loses no literal character. */
  lemma FlushText(st: Scan, current: Option<char>)
    ensures Structure(GenerateNewToken(st, current).tokens) == Structure(st.tokens)
    ensures var r := GenerateNewToken(st, current);
      LiteralText(r.tokens) + r.pending == LiteralText(st.tokens) + st.pending
    ensures ShouldGenerateNewToken(st.pending, current) ==>
      GenerateNewToken(st, current).tokens == st.tokens + [Classify(st.pending)]
  {
    FlushConserves(st, current);
    if ShouldGenerateNewToken(st.pending, current) {
      TokenViewsAppend(st.tokens, Classify(st.pending));
    }
  }

  /** Dealing with the pending literal keeps the token facts. */
  lemma GenerateKeeps(st: Scan, current: Option<char>)
    requires TokensInvariant(st)
    ensures TokensInvariant(GenerateNewToken(st, current))
  {
    if ShouldGenerateNewToken(st.pending, current) {
      var t := Classify(st.pending);
      var r := GenerateNewToken(st, current);
      assert r == Scan(st.tokens + [t], if t.Variable? then st.variables + {st.pending} else st.variables, st.level, []);
      assert DepthChange(t) == 0 && !t.Operator?;
      assert t.Variable? ==> t.symbol == st.pending;
      assert st.level >= 0 by {
        assert st.tokens[..|st.tokens|] == st.tokens;
      }
      AppendKeeps(st, t, r);
    }
  }

  /** A structural character is never part of a literal. */
  lemma StructuralIsNotLiteral(c: char)
    requires IsStructuralChar(c)
    ensures !IsLiteralChar(c) && (c == '(' || c == ')' || c in {'+', '-', '/', '*', '^', '!'})
  {
    if IsOperatorChar(c) {
      OperatorCharacters(c);
    }
  }

  /** The single-character operator keys. */
  lemma OperatorCharacters(c: char)
    ensures IsOperatorChar(c) <==> c in {'+', '-', '/', '*', '^', '!'}
  {
    if IsOperatorChar(c) {
      assert [c] != "-u";
      assert [c][0] == c;
    }
  }

  lemma StepValue(e: string, p: nat, st: Scan)
    requires p < |e| && Step(e, p, st).Ok?
    ensures Step(e, p, st).value == Consume(GenerateNewToken(st, Some(e[p])), e[p])
    ensures Step(e, p, st).value.level >= 0
  {
  }

  /** The token a `(`, `)` or operator character appends after the tokens `ts`. */
  function StructuralToken(c: char, ts: seq<Token>): (t: Token)
    requires IsStructuralChar(c)
    ensures !IsLiteralToken(t) && Registered(t) && StructChar(t) == [c] && DepthChange(t) == CharChange(c)
    ensures t.Operator? && StructChar(t) == "-" ==> (t.symbol == "-u" <==> ts == [] || ts[|ts| - 1].Operator?)
  {
    if c == '(' then OpenParen else if c == ')' then CloseParen else GenerateOperator(c, ts)
  }

  lemma ConsumeStructural(st: Scan, c: char)
    requires IsStructuralChar(c)
    ensures Consume(st, c)
         == st.(tokens := st.tokens + [StructuralToken(c, st.tokens)], level := st.level + CharChange(c))
  {
  }

  lemma FollowedAfterStructural(ts: seq<Token>, mid: seq<Token>, t: Token)
    requires LiteralsFollowed(ts) && !IsLiteralToken(t)
    requires mid == ts || (|mid| == |ts| + 1 && mid[..|ts|] == ts)
    ensures LiteralsFollowed(mid + [t])
  {
    var us := mid + [t];
    forall i | 0 <= i < |us| && IsLiteralToken(us[i])
      ensures i + 1 < |us| && !IsLiteralToken(us[i + 1])
    {
      if i < |ts| {
        assert us[i] == ts[i];
        if i + 1 < |ts| {
          assert us[i + 1] == ts[i + 1];
        }
      }
    }
  }

  /** A `(`, `)` or operator character: the pending literal is flushed, then one token is appended. */
  lemma StructuralStepShape(e: string, p: nat, st: Scan)
    requires p < |e| && Step(e, p, st).Ok? && IsStructuralChar(e[p])
    ensures var s1 := GenerateNewToken(st, Some(e[p]));
      && Step(e, p, st).value == s1.(tokens := s1.tokens + [StructuralToken(e[p], s1.tokens)], level := s1.level + CharChange(e[p]))
      && Step(e, p, st).value.level >= 0
  {
    ConsumeStructural(GenerateNewToken(st, Some(e[p])), e[p]);
    StepValue(e, p, st);
  }

  lemma StructuralTokensKeep(e: string, p: nat, st: Scan)
    requires p < |e| && TokensInvariant(st) && LiteralsFollowed(st.tokens)
    requires Step(e, p, st).Ok? && IsStructuralChar(e[p])
    ensures TokensInvariant(Step(e, p, st).value) && LiteralsFollowed(Step(e, p, st).value.tokens)
  {
    var c := e[p];
    var s1 := GenerateNewToken(st, Some(c));
    var t := StructuralToken(c, s1.tokens);
    StructuralStepShape(e, p, st);
    GenerateKeeps(st, Some(c));
    AppendKeeps(s1, t, Step(e, p, st).value);
    if ShouldGenerateNewToken(st.pending, Some(c)) {
      assert s1.tokens[..|st.tokens|] == st.tokens;
    }
    FollowedAfterStructural(st.tokens, s1.tokens, t);
  }

  lemma StructuralTextKeeps(e: string, p: nat, st: Scan)
    requires p < |e| && Step(e, p, st).Ok? && IsStructuralChar(e[p])
    requires Structure(st.tokens) == StructuralChars(e[..p])
    requires LiteralText(st.tokens) + st.pending == LiteralChars(e[..p])
    ensures Structure(Step(e, p, st).value.tokens) == StructuralChars(e[..p + 1])
    ensures LiteralText(Step(e, p, st).value.tokens) + Step(e, p, st).value.pending == LiteralChars(e[..p + 1])
  {
    var c := e[p];
    var s1 := GenerateNewToken(st, Some(c));
    StructuralStepShape(e, p, st);
    StructuralIsNotLiteral(c);
    FlushText(st, Some(c));
    CharViewsStep(e, p);
    TokenViewsAppend(s1.tokens, StructuralToken(c, s1.tokens));
  }

  lemma StructuralStepKeeps(e: string, p: nat, st: Scan)
    requires p < |e| && ScanInvariant(e, p, st) && Step(e, p, st).Ok? && IsStructuralChar(e[p])
    ensures ScanInvariant(e, p + 1, Step(e, p, st).value)
  {
    StructuralTokensKeep(e, p, st);
    StructuralTextKeeps(e, p, st);
  }

  /** Any other character: the literal grows or nothing happens. */
  lemma OtherStepKeeps(e: string, p: nat, st: Scan)
    requires p < |e| && ScanInvariant(e, p, st) && Step(e, p, st).Ok? && !IsStructuralChar(e[p])
    ensures ScanInvariant(e, p + 1, Step(e, p, st).value)
  {
    var c := e[p];
    assert GenerateNewToken(st, Some(c)) == st;
    CharViewsStep(e, p);
    if IsLiteralChar(c) {
      assert Step(e, p, st).value == st.(pending := st.pending + [c]);
    } else {
      assert Step(e, p, st).value == st;
    }
  }

  lemma StepKeeps(e: string, p: nat, st: Scan)
    requires p < |e| && ScanInvariant(e, p, st) && Step(e, p, st).Ok?
    ensures ScanInvariant(e, p + 1, Step(e, p, st).value)
  {
    if IsStructuralChar(e[p]) {
      StructuralStepKeeps(e, p, st);
    } else {
      OtherStepKeeps(e, p, st);
    }
  }

  /** The invariant holds after every prefix the loop gets through without an error. */
  lemma {:induction false} ScanKeeps(e: string, k: nat)
    requires k <= |e| && ScanPrefix(e, k).Ok?
    ensures ScanInvariant(e, k, ScanPrefix(e, k).value)
  {
    if k == 0 {
      assert e[..0] == [];
    } else {
      ScanKeeps(e, k - 1);
      StepKeeps(e, k - 1, ScanPrefix(e, k - 1).value);
    }
  }

  // ------------------------------------------------------------- spelling

  /** The characters the tokens were read from, in order: a literal's text, or a `(`, `)` or operator character. */
  function Spelling(ts: seq<Token>): string
  {
    if ts == [] then [] else Spelling(ts[..|ts| - 1]) + (LiteralOf(ts[|ts| - 1]) + StructChar(ts[|ts| - 1]))
  }

  /** The characters of `e` the loop does not drop (literal and structural ones), in order. */
  function Kept(e: string): string
  {
    if e == [] then []
    else Kept(e[..|e| - 1]) + (if IsLiteralChar(e[|e| - 1]) || IsStructuralChar(e[|e| - 1]) then [e[|e| - 1]] else [])
  }

  predicate AllLiteralChars(s: string) {
    forall i :: 0 <= i < |s| ==> IsLiteralChar(s[i])
  }

  /** A literal token at `i` is the classification of its own nonempty text of literal characters. */
  predicate ClassifiedAt(ts: seq<Token>, i: nat)
    requires i < |ts|
  {
    IsLiteralToken(ts[i]) ==>
      LiteralOf(ts[i]) != [] && AllLiteralChars(LiteralOf(ts[i])) && ts[i] == Classify(LiteralOf(ts[i]))
  }

  predicate LiteralsClassified(ts: seq<Token>) {
    forall i :: 0 <= i < |ts| ==> ClassifiedAt(ts, i)
  }

  /** The part of the loop invariant that places every token: the kept characters are the tokens' spelling and the pending literal. */
  predicate SpellingInvariant(e: string, k: nat, st: Scan)
    requires k <= |e|
  {
    && Spelling(st.tokens) + st.pending == Kept(e[..k])
    && AllLiteralChars(st.pending)
    && LiteralsClassified(st.tokens)
  }

  lemma KeptStep(e: string, p: nat)
    requires p < |e|
    ensures Kept(e[..p + 1]) == Kept(e[..p]) + (if IsLiteralChar(e[p]) || IsStructuralChar(e[p]) then [e[p]] else [])
  {
    assert e[..p + 1][..p] == e[..p];
  }

  lemma SpellingAppend(ts: seq<Token>, t: Token)
    ensures Spelling(ts + [t]) == Spelling(ts) + (LiteralOf(t) + StructChar(t))
  {
    assert (ts + [t])[..|ts|] == ts;
  }

  lemma ClassifiedAppend(ts: seq<Token>, t: Token)
    requires LiteralsClassified(ts) && ClassifiedAt([t], 0)
    ensures LiteralsClassified(ts + [t])
  {
    var us := ts + [t];
    forall i | 0 <= i < |us| ensures ClassifiedAt(us, i) {
      if i < |ts| {
        assert ClassifiedAt(ts, i) && us[i] == ts[i];
      } else {
        assert us[i] == [t][0];
      }
    }
  }

  /** Dealing with the pending literal moves it, classified, into the tokens; the spelling is unchanged. */
  lemma FlushSpelling(st: Scan, current: Option<char>)
    requires AllLiteralChars(st.pending) && LiteralsClassified(st.tokens)
    ensures var r := GenerateNewToken(st, current);
      && Spelling(r.tokens) + r.pending == Spelling(st.tokens) + st.pending
      && AllLiteralChars(r.pending) && LiteralsClassified(r.tokens)
      && (ShouldGenerateNewToken(st.pending, current) ==> r.pending == [])
  {
    if ShouldGenerateNewToken(st.pending, current) {
      var t := Classify(st.pending);
      assert GenerateNewToken(st, current).tokens == st.tokens + [t];
      SpellingAppend(st.tokens, t);
      assert ClassifiedAt([t], 0);
      ClassifiedAppend(st.tokens, t);
    }
  }

  lemma StructuralSpelling(e: string, p: nat, st: Scan)
    requires p < |e| && SpellingInvariant(e, p, st) && Step(e, p, st).Ok? && IsStructuralChar(e[p])
    ensures SpellingInvariant(e, p + 1, Step(e, p, st).value)
  {
    StructuralClassified(e, p, st);
    StructuralSpelled(e, p, st);
  }

  /** A structural character leaves no pending literal and appends a token that is not a literal. */
  lemma StructuralClassified(e: string, p: nat, st: Scan)
    requires p < |e| && Step(e, p, st).Ok? && IsStructuralChar(e[p])
    requires AllLiteralChars(st.pending) && LiteralsClassified(st.tokens)
    ensures Step(e, p, st).value.pending == [] && LiteralsClassified(Step(e, p, st).value.tokens)
  {
    var c := e[p];
    var s1 := GenerateNewToken(st, Some(c));
    var t := StructuralToken(c, s1.tokens);
    StructuralStepShape(e, p, st);
    FlushSpelling(st, Some(c));
    assert ClassifiedAt([t], 0);
    ClassifiedAppend(s1.tokens, t);
  }

  /** A structural character is spelled by its own token. */
  lemma StructuralSpelled(e: string, p: nat, st: Scan)
    requires p < |e| && Step(e, p, st).Ok? && IsStructuralChar(e[p])
    requires Spelling(st.tokens) + st.pending == Kept(e[..p])
    requires AllLiteralChars(st.pending) && LiteralsClassified(st.tokens)
    ensures Spelling(Step(e, p, st).value.tokens) == Kept(e[..p + 1])
  {
    var c := e[p];
    var s1 := GenerateNewToken(st, Some(c));
    var t := StructuralToken(c, s1.tokens);
    StructuralStepShape(e, p, st);
    FlushSpelling(st, Some(c));
    assert Spelling(s1.tokens) == Kept(e[..p]) by {
      assert s1.pending == [];
      assert Spelling(s1.tokens) + [] == Spelling(s1.tokens);
    }
    SpellingAppend(s1.tokens, t);
    assert LiteralOf(t) + StructChar(t) == [c];
    StructuralIsNotLiteral(c);
    KeptStep(e, p);
  }

  lemma OtherSpelling(e: string, p: nat, st: Scan)
    requires p < |e| && SpellingInvariant(e, p, st) && Step(e, p, st).Ok? && !IsStructuralChar(e[p])
    ensures SpellingInvariant(e, p + 1, Step(e, p, st).value)
  {
    var c := e[p];
    assert GenerateNewToken(st, Some(c)) == st;
    KeptStep(e, p);
    if IsLiteralChar(c) {
      assert Step(e, p, st).value == st.(pending := st.pending + [c]);
      assert Spelling(st.tokens) + (st.pending + [c]) == (Spelling(st.tokens) + st.pending) + [c];
    } else {
      assert Step(e, p, st).value == st;
    }
  }

  /** Every prefix the loop gets through satisfies the spelling invariant. */
  lemma {:induction false} ScanSpells(e: string, k: nat)
    requires k <= |e| && ScanPrefix(e, k).Ok?
    ensures SpellingInvariant(e, k, ScanPrefix(e, k).value)
  {
    if k == 0 {
      assert e[..0] == [];
    } else {
      ScanSpells(e, k - 1);
      SpellingStep(e, k - 1, ScanPrefix(e, k - 1).value);
    }
  }

  lemma SpellingStep(e: string, p: nat, st: Scan)
    requires p < |e| && SpellingInvariant(e, p, st) && Step(e, p, st).Ok?
    ensures SpellingInvariant(e, p + 1, Step(e, p, st).value)
  {
    if IsStructuralChar(e[p]) {
      StructuralSpelling(e, p, st);
    } else {
      OtherSpelling(e, p, st);
    }
  }

  // ---------------------------------------------------------- uniqueness

  /** The shape of the tokenizer's output, apart from the text it spells. */
  predicate WellFormed(ts: seq<Token>) {
    && LiteralsClassified(ts)
    && LiteralsSeparated(ts)
    && UnaryMinusPlaced(ts)
    && AllRegistered(ts)
  }

  lemma WellFormedPrefix(ts: seq<Token>)
    requires WellFormed(ts) && ts != []
    ensures WellFormed(ts[..|ts| - 1])
  {
    var us := ts[..|ts| - 1];
    assert forall i :: 0 <= i < |us| ==> us[i] == ts[i];
    forall i | 0 <= i < |us| ensures ClassifiedAt(us, i) && MinusPlacedAt(us, i) {
      assert ClassifiedAt(ts, i) && MinusPlacedAt(ts, i);
    }
  }

  /** A registered `(`, `)` or operator token is spelled by one structural character. */
  lemma StructuralSpelledByOne(t: Token)
    requires !IsLiteralToken(t) && Registered(t)
    ensures LiteralOf(t) == [] && |StructChar(t)| == 1
    ensures IsStructuralChar(StructChar(t)[0]) && !IsLiteralChar(StructChar(t)[0])
  {
    if t.Operator? && t.symbol != "-u" {
      assert t.symbol in Operators;
      assert |t.symbol| == 1 && [t.symbol[0]] == t.symbol;
    }
    StructuralIsNotLiteral(StructChar(t)[0]);
  }

  /** The last token of well-formed output spells the end of the text, and only a literal ends in a literal character. */
  lemma LastSpelled(ts: seq<Token>)
    requires WellFormed(ts) && ts != []
    ensures var t := ts[|ts| - 1]; var w := LiteralOf(t) + StructChar(t);
      && Spelling(ts) == Spelling(ts[..|ts| - 1]) + w
      && |w| >= 1
      && (IsLiteralToken(t) <==> IsLiteralChar(w[|w| - 1]))
      && (IsLiteralToken(t) ==> w == LiteralOf(t) && AllLiteralChars(w))
      && (!IsLiteralToken(t) ==> |w| == 1)
  {
    var t := ts[|ts| - 1];
    assert ClassifiedAt(ts, |ts| - 1);
    assert Registered(t);
    if !IsLiteralToken(t) {
      StructuralSpelledByOne(t);
    }
  }

  /** Two registered structural tokens spelled alike differ at most in which minus they are. */
  lemma StructuralUnique(a: Token, b: Token)
    requires !IsLiteralToken(a) && !IsLiteralToken(b) && Registered(a) && Registered(b)
    requires StructChar(a) == StructChar(b)
    requires a.Operator? && b.Operator? ==> (a.symbol == "-u" <==> b.symbol == "-u")
    ensures a == b
  {
    StructuralSpelledByOne(a);
    StructuralSpelledByOne(b);
    if a.Operator? && b.Operator? {
      assert a.symbol == b.symbol;
    }
  }

  /** The character just before the last literal token, if any, is structural: a literal is never cut short. */
  lemma LiteralBoundary(ts: seq<Token>)
    requires WellFormed(ts) && ts != [] && IsLiteralToken(ts[|ts| - 1])
    requires |Spelling(ts)| > |LiteralOf(ts[|ts| - 1])|
    ensures !IsLiteralChar(Spelling(ts)[|Spelling(ts)| - |LiteralOf(ts[|ts| - 1])| - 1])
  {
    LastSpelled(ts);
    var front := ts[..|ts| - 1];
    var sf := Spelling(front);
    assert sf != [];
    assert front != [];
    WellFormedPrefix(ts);
    assert ts[|ts| - 2] == front[|front| - 1];
    assert !IsLiteralToken(front[|front| - 1]);
    LastSpelled(front);
    assert Spelling(ts)[|sf| - 1] == sf[|sf| - 1];
  }

  /** The spelling of well-formed output is empty only for no tokens. */
  lemma SpellingEmpty(ts: seq<Token>)
    requires WellFormed(ts) && Spelling(ts) == []
    ensures ts == []
  {
    if ts != [] {
      LastSpelled(ts);
    }
  }

  /**
   * Well-formed token lists that spell the same characters are equal: the
   * spelling fixes where each token sits, splits the literals at structural
   * characters only, and the registry and the minus rule fix each token.
   */
  lemma {:induction false} SpellingDetermines(ts: seq<Token>, us: seq<Token>)
    requires WellFormed(ts) && WellFormed(us) && Spelling(ts) == Spelling(us)
    ensures ts == us
    decreases |ts|
  {
    if ts == [] {
      SpellingEmpty(us);
    } else if us == [] {
      SpellingEmpty(ts);
    } else {
      var ts', us' := ts[..|ts| - 1], us[..|us| - 1];
      var a, b := ts[|ts| - 1], us[|us| - 1];
      LastSpelled(ts);
      LastSpelled(us);
      if IsLiteralToken(a) && IsLiteralToken(b) {
        SameLiteralLength(ts, us);
      }
      SplitSpelling(Spelling(ts'), LiteralOf(a) + StructChar(a), IsLiteralToken(a),
                    Spelling(us'), LiteralOf(b) + StructChar(b), IsLiteralToken(b));
      WellFormedPrefix(ts);
      WellFormedPrefix(us);
      SpellingDetermines(ts', us');
      LastAgree(ts, us);
      assert ts == ts' + [a] && us == us' + [b];
    }
  }

  /**
   * Two ways of cutting one string into a front and a last word agree when a
   * word ending in a literal character is a literal, any other word is one
   * character, and two literals at the end have the same length.
   */
  lemma SplitSpelling(x: string, w: string, lw: bool, y: string, v: string, lv: bool)
    requires x + w == y + v && |w| >= 1 && |v| >= 1
    requires (lw <==> IsLiteralChar(w[|w| - 1])) && (lv <==> IsLiteralChar(v[|v| - 1]))
    requires (!lw ==> |w| == 1) && (!lv ==> |v| == 1) && (lw && lv ==> |w| == |v|)
    ensures lw == lv && x == y && w == v
  {
    LastChar(x, w);
    LastChar(y, v);
    ConcatCancel(x, w, y, v);
  }

  lemma LastChar(x: string, w: string)
    requires w != []
    ensures (x + w)[|x + w| - 1] == w[|w| - 1]
  {
  }

  lemma ConcatCancel(x: string, w: string, y: string, v: string)
    requires x + w == y + v && |w| == |v|
    ensures x == y && w == v
  {
    assert x == (x + w)[..|x|] && y == (y + v)[..|y|];
    assert w == (x + w)[|x|..] && v == (y + v)[|y|..];
  }

  /** After equal prefixes, equally spelled last tokens are equal. */
  lemma LastAgree(ts: seq<Token>, us: seq<Token>)
    requires WellFormed(ts) && WellFormed(us) && ts != [] && us != []
    requires ts[..|ts| - 1] == us[..|us| - 1]
    requires var a, b := ts[|ts| - 1], us[|us| - 1];
      && LiteralOf(a) + StructChar(a) == LiteralOf(b) + StructChar(b)
      && (IsLiteralToken(a) <==> IsLiteralToken(b))
    ensures ts[|ts| - 1] == us[|us| - 1]
  {
    var a, b := ts[|ts| - 1], us[|us| - 1];
    LastSpelled(ts);
    LastSpelled(us);
    if IsLiteralToken(a) {
      assert ClassifiedAt(ts, |ts| - 1) && ClassifiedAt(us, |us| - 1);
    } else {
      assert MinusPlacedAt(ts, |ts| - 1) && MinusPlacedAt(us, |us| - 1);
      if |ts| > 1 {
        assert ts[|ts| - 2] == ts[..|ts| - 1][|ts| - 2] == us[|us| - 2];
      }
      assert Registered(a) && Registered(b);
      StructuralUnique(a, b);
    }
  }

  /** Two well-formed lists with the same spelling that end in literals end in literals of the same length. */
  lemma SameLiteralLength(ts: seq<Token>, us: seq<Token>)
    requires WellFormed(ts) && WellFormed(us) && Spelling(ts) == Spelling(us)
    requires ts != [] && us != [] && IsLiteralToken(ts[|ts| - 1]) && IsLiteralToken(us[|us| - 1])
    ensures |LiteralOf(ts[|ts| - 1])| == |LiteralOf(us[|us| - 1])|
  {
    var n, m := |LiteralOf(ts[|ts| - 1])|, |LiteralOf(us[|us| - 1])|;
    LastSpelled(ts);
    LastSpelled(us);
    if n < m {
      LiteralBoundary(ts);
      assert false;
    } else if m < n {
      LiteralBoundary(us);
      assert false;
    }
  }

  // ---------------------------------------------------------------- errors

  lemma StepLevel(st: Scan, c: char)
    ensures Consume(GenerateNewToken(st, Some(c)), c).level == st.level + CharChange(c)
  {
    if IsStructuralChar(c) {
      ConsumeStructural(GenerateNewToken(st, Some(c)), c);
    } else {
      assert GenerateNewToken(st, Some(c)) == st;
    }
  }

  /** With no failing position yet, the loop is still running at the level the text implies. */
  lemma {:induction false} ScanClean(e: string, k: nat)
    requires k <= |e| && FaultFree(e, k) && (k < |e| || CharDepth(e) <= 0)
    ensures ScanPrefix(e, k).Ok? && ScanPrefix(e, k).value.level == CharDepth(e[..k])
  {
    if k == 0 {
      assert e[..0] == [];
    } else {
      FaultFreeStep(e, k - 1);
      ScanClean(e, k - 1);
      assert e[..|e|] == e;
      StepOutcome(e, k - 1, ScanPrefix(e, k - 1).value);
    }
  }

  /** The first failing position decides the error, whatever follows it. */
  lemma ScanFault(e: string, p: nat, k: nat)
    requires p < k <= |e| && Faulty(e, p) && FaultFree(e, p)
    ensures ScanPrefix(e, k) == Err(FaultAt(e, p))
  {
    ScanClean(e, p);
    StepOutcome(e, p, ScanPrefix(e, p).value);
    ErrorPersists(e, p + 1, k);
  }

  /** With no failing position, the text is rejected exactly when a `(` is left open. */
  lemma ScanUnclosed(e: string)
    requires FaultFree(e, |e|)
    ensures ScanPrefix(e, |e|).Err? <==> CharDepth(e) > 0
    ensures ScanPrefix(e, |e|).Err? ==> ScanPrefix(e, |e|) == Err(UnmatchingOpenParentheses)
  {
    if CharDepth(e) <= 0 {
      ScanClean(e, |e|);
    } else {
      assert e != [];
      var p := |e| - 1;
      FaultFreeStep(e, p);
      ScanClean(e, p);
      assert e[..p + 1] == e;
      StepOutcome(e, p, ScanPrefix(e, p).value);
    }
  }

  /** One step, at a level that matches the text read so far, fails exactly as `FaultAt` says. */
  lemma StepOutcome(e: string, p: nat, st: Scan)
    requires p < |e| && st.level == CharDepth(e[..p])
    ensures Step(e, p, st).Err? <==> Faulty(e, p) || (p == |e| - 1 && CharDepth(e[..p + 1]) > 0)
    ensures Faulty(e, p) ==> Step(e, p, st) == Err(FaultAt(e, p))
    ensures !Faulty(e, p) && Step(e, p, st).Err? ==> Step(e, p, st) == Err(UnmatchingOpenParentheses)
    ensures Step(e, p, st).Ok? ==> Step(e, p, st).value.level == CharDepth(e[..p + 1])
  {
    StepLevel(st, e[p]);
    CharViewsStep(e, p);
  }

  lemma FaultFreeStep(e: string, p: nat)
    requires p < |e|
    ensures FaultFree(e, p + 1) <==> FaultFree(e, p) && !Faulty(e, p)
  {
  }

  /** A text with a failing position has a first one. */
  lemma {:induction false} FirstFault(e: string, k: nat)
    requires k <= |e| && !FaultFree(e, k)
    ensures exists p :: 0 <= p < k && Faulty(e, p) && FaultFree(e, p)
  {
    if FaultFree(e, k - 1) {
      assert Faulty(e, k - 1);
    } else {
      FirstFault(e, k - 1);
    }
  }

  /**
   * The error `tokenize` raises: at the first failing position of the rewritten
   * text, `UnexpectedCharacter` if that check fails there and otherwise
   * `UnmatchingCloseParentheses`; with no failing position, `UnmatchingOpenParentheses`
   * exactly when more `(` than `)` remain at the end.
   */
  lemma TokenizeErrors(s: string)
    ensures var e := ExpandImplicit(s);
      forall p :: 0 <= p < |e| && Faulty(e, p) && FaultFree(e, p) ==> TokenizeSpec(s) == Err(FaultAt(e, p))
    ensures var e := ExpandImplicit(s);
      FaultFree(e, |e|) ==>
        && (TokenizeSpec(s).Err? <==> CharDepth(e) > 0)
        && (TokenizeSpec(s).Err? ==> TokenizeSpec(s).error == UnmatchingOpenParentheses)
  {
    var e := ExpandImplicit(s);
    forall p | 0 <= p < |e| && Faulty(e, p) && FaultFree(e, p)
      ensures TokenizeSpec(s) == Err(FaultAt(e, p))
    {
      ScanFault(e, p, |e|);
    }
    if FaultFree(e, |e|) {
      ScanUnclosed(e);
    }
  }

  /** A text whose parentheses balance raises neither parenthesis error. */
  lemma BalancedTextHasNoParenthesisError(s: string)
    requires var e := ExpandImplicit(s);
      (forall j :: 0 <= j <= |e| ==> CharDepth(e[..j]) >= 0) && CharDepth(e) == 0
    ensures TokenizeSpec(s).Ok? || TokenizeSpec(s).error.UnexpectedCharacter?
  {
    var e := ExpandImplicit(s);
    TokenizeErrors(s);
    if !FaultFree(e, |e|) {
      FirstFault(e, |e|);
      var p :| 0 <= p < |e| && Faulty(e, p) && FaultFree(e, p);
      assert CharDepth(e[..p + 1]) >= 0;
    }
  }

  // ------------------------------------------------------- accepted texts

  /**
   * A rewritten text the loop gets through has no failing position and as
   * many `(` as `)`, and the loop ends at level 0.
   */
  lemma ScanAccepted(e: string)
    requires ScanPrefix(e, |e|).Ok?
    ensures FaultFree(e, |e|) && CharDepth(e) == 0
    ensures ScanPrefix(e, |e|).value.level == 0
  {
    if !FaultFree(e, |e|) {
      FirstFault(e, |e|);
      var p :| 0 <= p < |e| && Faulty(e, p) && FaultFree(e, p);
      ScanFault(e, p, |e|);
    }
    ScanUnclosed(e);
    if e != [] {
      assert !Faulty(e, |e| - 1);
      assert e[..|e| - 1 + 1] == e;
    }
    ScanClean(e, |e|);
    assert e[..|e|] == e;
  }

  /** Once the last literal has been flushed, the tokens spell exactly the kept characters, each literal classified. */
  lemma FinalSpelling(s: string)
    requires TokenizeSpec(s).Ok?
    ensures var r := TokenizeSpec(s).value;
      Spelling(r.tokens) == Kept(ExpandImplicit(s)) && LiteralsClassified(r.tokens)
  {
    var e := ExpandImplicit(s);
    assert e[..|e|] == e;
    var st := ScanPrefix(e, |e|).value;
    ScanSpells(e, |e|);
    FlushSpelling(st, None);
    assert GenerateNewToken(st, None).pending == [];
  }

  /** What the loop invariant gives once the last literal has been flushed. */
  lemma FinalState(s: string)
    requires TokenizeSpec(s).Ok?
    ensures var e := ExpandImplicit(s); var r := TokenizeSpec(s).value;
      && r.variables == VarSymbols(r.tokens)
      && Structure(r.tokens) == StructuralChars(e)
      && LiteralText(r.tokens) == LiteralChars(e)
      && Spelling(r.tokens) == Kept(e)
      && LiteralsClassified(r.tokens)
      && LiteralsSeparated(r.tokens)
      && PrefixBalanced(r.tokens) && TokenDepth(r.tokens) == 0
      && UnaryMinusPlaced(r.tokens)
      && AllRegistered(r.tokens)
  {
    var e := ExpandImplicit(s);
    assert e[..|e|] == e;
    var st := ScanPrefix(e, |e|).value;
    FinalSpelling(s);
    ScanKeeps(e, |e|);
    ScanAccepted(e);
    var last := GenerateNewToken(st, None);
    GenerateKeeps(st, None);
    FlushText(st, None);
    assert last.pending == [];
    var ts := last.tokens;
    forall i | 0 <= i < |ts| - 1 && IsLiteralToken(ts[i]) ensures !IsLiteralToken(ts[i + 1]) {
      if ts != st.tokens {
        assert ts[..|st.tokens|] == st.tokens;
        assert ts[i] == st.tokens[i];
      }
    }
  }

  /** The returned variable set is exactly the set of names of the `Variable` tokens. */
  lemma TokenizeVariables(s: string)
    requires TokenizeSpec(s).Ok?
    ensures TokenizeSpec(s).value.variables == VarSymbols(TokenizeSpec(s).value.tokens)
  {
    FinalState(s);
  }

  /**
   * Each `(`, `)` and operator character of the rewritten text yields exactly
   * one token, in text order (`-` as `-` or `-u`).
   */
  lemma TokenizeKeepsStructure(s: string)
    requires TokenizeSpec(s).Ok?
    ensures Structure(TokenizeSpec(s).value.tokens) == StructuralChars(ExpandImplicit(s))
  {
    FinalState(s);
  }

  /**
   * The literal tokens spell out the digits, dots and letters of the rewritten
   * text, in order and verbatim; every other character is dropped, and no two
   * literal tokens are adjacent (a literal ends only at `(`, `)`, an operator or
   * the end).
   */
  lemma TokenizeKeepsLiterals(s: string)
    requires TokenizeSpec(s).Ok?
    ensures LiteralText(TokenizeSpec(s).value.tokens) == LiteralChars(ExpandImplicit(s))
    ensures LiteralsSeparated(TokenizeSpec(s).value.tokens)
  {
    FinalState(s);
  }

  /**
   * The output is the one and only well-formed token list that spells the
   * kept characters of the rewritten text: every literal is classified from
   * its own text and runs from one structural character to the next, and the
   * structural tokens follow from their characters and the minus rule.
   */
  lemma TokenizeDetermined(s: string, ts: seq<Token>)
    requires TokenizeSpec(s).Ok?
    ensures WellFormed(TokenizeSpec(s).value.tokens)
    ensures Spelling(TokenizeSpec(s).value.tokens) == Kept(ExpandImplicit(s))
    ensures WellFormed(ts) && Spelling(ts) == Kept(ExpandImplicit(s)) ==> ts == TokenizeSpec(s).value.tokens
  {
    FinalState(s);
    if WellFormed(ts) && Spelling(ts) == Kept(ExpandImplicit(s)) {
      SpellingDetermines(ts, TokenizeSpec(s).value.tokens);
    }
  }

  /** A `-` token is unary exactly when it is the first token or follows an operator token. */
  lemma TokenizeUnaryMinus(s: string)
    requires TokenizeSpec(s).Ok?
    ensures UnaryMinusPlaced(TokenizeSpec(s).value.tokens)
  {
    FinalState(s);
  }

  /**
   * Accepted output never closes an unopened parenthesis, closes them all, and
   * every token carries its registry row: what the converter relies on.
   */
  lemma TokenizeBalanced(s: string)
    requires TokenizeSpec(s).Ok?
    ensures PrefixBalanced(TokenizeSpec(s).value.tokens)
    ensures TokenDepth(TokenizeSpec(s).value.tokens) == 0
    ensures AllRegistered(TokenizeSpec(s).value.tokens)
  {
    FinalState(s);
  }
}
