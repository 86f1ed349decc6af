/**
 * The tokenizer: the implicit-multiplication rewrite, then one left-to-right
 * pass over the rewritten text that keeps a pending literal, emits tokens,
 * resolves unary minus, tracks the parenthesis level and stops at the first
 * structural error. Error positions index the rewritten text.
 */
module Tokenizer {
  import opened Results
  import opened Tokens
  import opened ImplicitMultiplication

  datatype TokenizeError =
    | UnmatchingOpenParentheses
    | UnmatchingCloseParentheses(position: nat)
    | UnexpectedCharacter(position: nat)

  /** What `tokenize` returns: the tokens and the names of the variables found. */
  datatype Tokenized = Tokenized(tokens: seq<Token>, variables: set<string>)

  /** The loop's local state: tokens so far, variables so far, parenthesis level, pending literal. */
  datatype Scan = Scan(tokens: seq<Token>, variables: set<string>, level: int, pending: string)

  const Start: Scan := Scan([], {}, 0, [])

  // ------------------------------------------------------------ token views

  /** The concatenated literal texts of the literal tokens, in order. */
  function LiteralText(ts: seq<Token>): string
  {
    if ts == [] then [] else LiteralText(ts[..|ts| - 1]) + LiteralOf(ts[|ts| - 1])
  }

  /** The character each paren and operator token was read from (`-u` was read from `-`). */
  function StructChar(t: Token): string
  {
    match t
    case OpenParen => "("
    case CloseParen => ")"
    case Operator(s, _, _, _) => if s == "-u" then "-" else s
    case _ => ""
  }

  /** The paren and operator characters the tokens stand for, in order. */
  function Structure(ts: seq<Token>): string
  {
    if ts == [] then [] else Structure(ts[..|ts| - 1]) + StructChar(ts[|ts| - 1])
  }

  /** The names of the `Variable` tokens. */
  function VarSymbols(ts: seq<Token>): set<string>
  {
    if ts == [] then {}
    else VarSymbols(ts[..|ts| - 1]) + (if ts[|ts| - 1].Variable? then {ts[|ts| - 1].symbol} else {})
  }

  // ------------------------------------------------------- literal handling

  predicate AllLetters(s: string) {
    forall i :: 0 <= i < |s| ==> IsLetter(s[i])
  }

  /**
   * Classifies a completed literal: a registered constant, else a registered
   * function, else a variable when it is all letters, else a value that keeps
   * its text verbatim.
   */
  function Classify(literal: string): (t: Token)
    requires literal != []
    ensures IsLiteralToken(t) && LiteralOf(t) == literal && Registered(t)
    ensures t.Constant? <==> literal in Constants
    ensures t.Function? <==> literal !in Constants && literal in Functions
    ensures t.Variable? <==> literal !in Constants && literal !in Functions && AllLetters(literal)
  {
    if literal in Constants then MakeConstant(literal)
    else if literal in Functions then MakeFunction(literal)
    else if AllLetters(literal) then Variable(literal)
    else Value(literal)
  }

  /** `_should_generate_new_token`: a pending literal ends at `(`, `)`, an operator character or the end (`None`). */
  predicate ShouldGenerateNewToken(pending: string, current: Option<char>): (r: bool)
    ensures r ==> pending != []
    ensures current.Some? && IsLiteralChar(current.value) ==> !r
    ensures pending != [] && current.None? ==> r
    ensures pending != [] && current.Some? && IsOperatorChar(current.value) ==> r
    ensures pending != [] && current.Some? && (current.value == '(' || current.value == ')') ==> r
    ensures (&& current.Some? && !IsLiteralChar(current.value) && !IsOperatorChar(current.value)
             && current.value != '(' && current.value != ')') ==> !r
  {
    && pending != []
    && (current.None? || current.value == '(' || current.value == ')' || IsOperatorChar(current.value))
  }

  /** `_generate_new_token`: turns the pending literal into a token when it has ended. */
  function GenerateNewToken(st: Scan, current: Option<char>): (r: Scan)
    ensures r.level == st.level
    ensures !ShouldGenerateNewToken(st.pending, current) ==> r == st
  {
    if ShouldGenerateNewToken(st.pending, current) then
      var t := Classify(st.pending);
      Scan(st.tokens + [t], if t.Variable? then st.variables + {st.pending} else st.variables, st.level, [])
    else
      st
  }

  /**
   * A flush moves the pending characters into exactly one new literal token:
   * no literal character is lost or added.
   */
  lemma FlushConserves(st: Scan, current: Option<char>)
    ensures var r := GenerateNewToken(st, current);
      && LiteralText(r.tokens) + r.pending == LiteralText(st.tokens) + st.pending
      && (ShouldGenerateNewToken(st.pending, current) ==> r.pending == [] && |r.tokens| == |st.tokens| + 1)
  {
    var r := GenerateNewToken(st, current);
    if ShouldGenerateNewToken(st.pending, current) {
      assert r.tokens[..|r.tokens| - 1] == st.tokens;
    }
  }

  /** `_generate_operator`: `-` is unary when nothing, or an operator, precedes it. */
  function GenerateOperator(c: char, tokens: seq<Token>): (t: Token)
    requires IsOperatorChar(c)
    ensures t.Operator? && Registered(t) && StructChar(t) == [c]
    ensures t.symbol == "-u" <==> c == '-' && (tokens == [] || tokens[|tokens| - 1].Operator?)
  {
    if c == '-' && (tokens == [] || tokens[|tokens| - 1].Operator?) then MakeOperator("-u")
    else MakeOperator([c])
  }

  // ------------------------------------------------------------- the checks

  /**
   * `_evaluate_unexpected_char`: `.` after `.`, or `)` right after `(`. The
   * character before position 0 is the last character of the text.
   */
  predicate UnexpectedAt(e: string, p: nat): (r: bool)
    requires p < |e|
    ensures r ==> e[p] == '.' || e[p] == ')'
    ensures 0 < p ==> (r <==> e[p - 1..p + 1] == ".." || e[p - 1..p + 1] == "()")
    ensures p == 0 ==> (r <==> [e[|e| - 1], e[0]] == ".." || [e[|e| - 1], e[0]] == "()")
  {
    var previous := if p == 0 then e[|e| - 1] else e[p - 1];
    (e[p] == '.' && previous == '.') || (e[p] == ')' && previous == '(')
  }

  /** `_evaluate_matching_parentheses`, run after each character. */
  function MatchingParentheses(level: int, position: nat, length: nat): (r: Option<TokenizeError>)
    ensures r == Some(UnmatchingCloseParentheses(position)) <==> level < 0
    ensures r == Some(UnmatchingOpenParentheses) <==> level > 0 && position + 1 == length
    ensures r.None? <==> level == 0 || (level > 0 && position + 1 != length)
  {
    if level <= -1 then Some(UnmatchingCloseParentheses(position))
    else if position == length - 1 && level > 0 then Some(UnmatchingOpenParentheses)
    else None
  }

  // ----------------------------------------------------------- the scanning

  /** What one character does to the state once the pending literal has been dealt with. */
  function Consume(st: Scan, c: char): Scan
  {
    if c == '(' then st.(level := st.level + 1, tokens := st.tokens + [OpenParen])
    else if c == ')' then st.(level := st.level - 1, tokens := st.tokens + [CloseParen])
    else if IsLiteralChar(c) then st.(pending := st.pending + [c])
    else if IsOperatorChar(c) then st.(tokens := st.tokens + [GenerateOperator(c, st.tokens)])
    else st
  }

  /** One iteration of the loop, at position `p` of the rewritten text `e`. */
  function Step(e: string, p: nat, st: Scan): Result<Scan, TokenizeError>
    requires p < |e|
  {
    if UnexpectedAt(e, p) then Err(UnexpectedCharacter(p))
    else
      var next := Consume(GenerateNewToken(st, Some(e[p])), e[p]);
      match MatchingParentheses(next.level, p, |e|)
      case Some(err) => Err(err)
      case None => Ok(next)
  }

  /** The state after the first `k` characters, or the error that stopped the loop. */
  function ScanPrefix(e: string, k: nat): Result<Scan, TokenizeError>
    requires k <= |e|
  {
    if k == 0 then Ok(Start)
    else
      match ScanPrefix(e, k - 1)
      case Err(err) => Err(err)
      case Ok(st) => Step(e, k - 1, st)
  }

  /** Once the loop has stopped with an error, later prefixes report the same error. */
  lemma {:induction false} ErrorPersists(e: string, j: nat, k: nat)
    requires j <= k <= |e| && ScanPrefix(e, j).Err?
    ensures ScanPrefix(e, k) == ScanPrefix(e, j)
    decreases k - j
  {
    if j < k {
      ErrorPersists(e, j + 1, k);
    }
  }

  /** `tokenize` as a function of its input. */
  function TokenizeSpec(expression: string): Result<Tokenized, TokenizeError>
  {
    var e := ExpandImplicit(expression);
    match ScanPrefix(e, |e|)
    case Err(err) => Err(err)
    case Ok(st) =>
      var last := GenerateNewToken(st, None);
      Ok(Tokenized(last.tokens, last.variables))
  }

  /** The loop of `tokenize` over the rewritten text `e`, up to the final flush. */
  method ScanText(e: string) returns (r: Result<Scan, TokenizeError>)
    ensures r == ScanPrefix(e, |e|)
  {
    var st := Start;
    for position := 0 to |e|
      invariant ScanPrefix(e, position) == Ok(st)
    {
      var c := e[position];
      if UnexpectedAt(e, position) {
        ErrorPersists(e, position + 1, |e|);
        return Err(UnexpectedCharacter(position));
      }
      var flushed := GenerateNewToken(st, Some(c));
      st := flushed;
      if c == '(' {
        st := st.(level := st.level + 1, tokens := st.tokens + [OpenParen]);
      } else if c == ')' {
        st := st.(level := st.level - 1, tokens := st.tokens + [CloseParen]);
      } else if IsLiteralChar(c) {
        st := st.(pending := st.pending + [c]);
      } else if IsOperatorChar(c) {
        st := st.(tokens := st.tokens + [GenerateOperator(c, st.tokens)]);
      }
      assert st == Consume(flushed, c);
      var check := MatchingParentheses(st.level, position, |e|);
      ScanNext(e, position, flushed, st);
      if check.Some? {
        ErrorPersists(e, position + 1, |e|);
        return Err(check.value);
      }
    }
    return Ok(st);
  }

  /** What the body of the loop of `tokenize` makes of the next prefix once the character passed its first check. */
  lemma ScanNext(e: string, p: nat, flushed: Scan, next: Scan)
    requires p < |e| && !UnexpectedAt(e, p) && ScanPrefix(e, p).Ok?
    requires flushed == GenerateNewToken(ScanPrefix(e, p).value, Some(e[p])) && next == Consume(flushed, e[p])
    ensures MatchingParentheses(next.level, p, |e|).Some? ==>
      ScanPrefix(e, p + 1) == Err(MatchingParentheses(next.level, p, |e|).value)
    ensures MatchingParentheses(next.level, p, |e|).None? ==> ScanPrefix(e, p + 1) == Ok(next)
  {
  }

  /** `Tokenizer.tokenize`. */
  method Tokenize(expression: string) returns (r: Result<Tokenized, TokenizeError>)
    ensures r == TokenizeSpec(expression)
  {
    var e := ExpandImplicit(expression);
    var scanned := ScanText(e);
    if scanned.Err? {
      return Err(scanned.error);
    }
    var last := GenerateNewToken(scanned.value, None);
    return Ok(Tokenized(last.tokens, last.variables));
  }
}
