/**
 * The token model and the three fixed registries (constants, one-argument
 * functions, operators). A token's fields are copied from the registry row of
 * its symbol when it is built, and never change afterwards.
 */
module Tokens {

  datatype Assoc = Left | Right

  /** Every registered operator and function takes one or two operands. */
  type Arity = k: nat | k >= 1 witness 1

  /** One row of the operator table: precedence, associativity, operand count. */
  datatype OperatorRow = OperatorRow(precedence: nat, assoc: Assoc, arity: Arity)

  /** Registered constants. `pi` and `e` are the `repr` strings of the doubles `math.pi` and `math.e`, read as exact decimals, not the doubles' exact values. */
  const Constants: map<string, real> :=
    map["pi" := 3.141592653589793, "e" := 2.718281828459045, "phi" := 1.618033988749894]

  /** Registered functions, by name, with their operand count. */
  const Functions: map<string, Arity> :=
    map["sqrt" := 1, "cbrt" := 1, "sin" := 1, "cos" := 1, "tan" := 1, "radians" := 1, "degrees" := 1]

  /** Registered operators; "-u" is the unary minus the tokenizer synthesizes. */
  const Operators: map<string, OperatorRow> :=
    map[
      "+" := OperatorRow(2, Left, 2),
      "-" := OperatorRow(2, Left, 2),
      "/" := OperatorRow(3, Left, 2),
      "*" := OperatorRow(3, Left, 2),
      "^" := OperatorRow(4, Right, 2),
      "!" := OperatorRow(5, Left, 1),
      "-u" := OperatorRow(5, Right, 1)]

  /** The characters of a numeric literal: the ten digits and the decimal point. */
  const Numbers: set<char> := {'0', '1', '2', '3', '4', '5', '6', '7', '8', '9', '.'}

  /** ASCII letters (the model of `str.isalpha` and of `[a-zA-Z]`). */
  predicate IsLetter(c: char) {
    'a' <= c <= 'z' || 'A' <= c <= 'Z'
  }

  /** A character that extends the pending literal. */
  predicate IsLiteralChar(c: char) {
    c in Numbers || IsLetter(c)
  }

  /** A single character that is a key of the operator table. */
  predicate IsOperatorChar(c: char) {
    [c] in Operators
  }

  datatype Token =
    | Value(text: string)
    | Variable(symbol: string)
    | Constant(symbol: string, value: real)
    | Operator(symbol: string, precedence: nat, assoc: Assoc, arity: Arity)
    | Function(symbol: string, arity: Arity)
    | OpenParen
    | CloseParen

  /** The token classes built from a literal: values, variables, constants, functions. */
  predicate IsLiteralToken(t: Token) {
    t.Value? || t.Variable? || t.Constant? || t.Function?
  }

  /** Operand tokens: the ones the converter sends straight to its output. */
  predicate IsOperand(t: Token) {
    t.Value? || t.Variable? || t.Constant?
  }

  /** The text a literal token was built from. */
  function LiteralOf(t: Token): string {
    match t
    case Value(text) => text
    case Variable(s) => s
    case Constant(s, _) => s
    case Function(s, _) => s
    case _ => ""
  }

  /** A token whose copied fields agree with the registry row of its symbol. */
  predicate Registered(t: Token) {
    match t
    case Constant(s, v) => s in Constants && Constants[s] == v
    case Operator(s, p, a, k) => s in Operators && Operators[s] == OperatorRow(p, a, k)
    case Function(s, k) => s in Functions && Functions[s] == k
    case _ => true
  }

  /** `Operator(symbol)`: copies the table row of a registered operator symbol. */
  function MakeOperator(symbol: string): (t: Token)
    requires symbol in Operators
    ensures t.Operator? && t.symbol == symbol && Registered(t)
  {
    var row := Operators[symbol];
    Operator(symbol, row.precedence, row.assoc, row.arity)
  }

  /** `Function(name)`: copies the operand count of a registered function. */
  function MakeFunction(name: string): (t: Token)
    requires name in Functions
    ensures t.Function? && t.symbol == name && t.arity == 1 && Registered(t)
  {
    Function(name, Functions[name])
  }

  /** `Constant(name)`: a value token carrying the registered number. */
  function MakeConstant(name: string): (t: Token)
    requires name in Constants
    ensures t.Constant? && t.symbol == name && t.value == Constants[name] && Registered(t)
  {
    Constant(name, Constants[name])
  }

  /** The `symbol` attribute of the tokens that have one; `(` and `)` have fixed symbols. */
  function Symbol(t: Token): string
    requires !t.Value?
  {
    match t
    case Variable(s) => s
    case Constant(s, _) => s
    case Operator(s, _, _, _) => s
    case Function(s, _) => s
    case OpenParen => "("
    case CloseParen => ")"
  }

  /**
   * The source's `==` on tokens that have a symbol: symbols are compared, and an
   * operator also compares its operand count with the other token's. An
   * operator compared with a same-symbol token that has no operand count makes
   * the source raise, so that comparison is excluded.
   */
  predicate SameToken(a: Token, b: Token): (r: bool)
    requires !a.Value? && !b.Value?
    requires a.Operator? && Symbol(a) == Symbol(b) ==> b.Operator? || b.Function?
    ensures a == b ==> r
    ensures r ==> Symbol(a) == Symbol(b)
    ensures !a.Operator? ==> (r <==> Symbol(a) == Symbol(b))
    ensures a.Operator? && b.Operator? ==> (r <==> Symbol(a) == Symbol(b) && a.arity == b.arity)
  {
    Symbol(a) == Symbol(b) && (a.Operator? ==> (b.Operator? || b.Function?) && a.arity == b.arity)
  }

  /**
   * On registered operators the source's `==` is exact: the symbol fixes the
   * row, so equal symbols and operand counts mean equal tokens.
   */
  lemma RegisteredOperatorEquality(a: Token, b: Token)
    requires a.Operator? && b.Operator? && Registered(a) && Registered(b)
    ensures SameToken(a, b) <==> a == b
  {
  }

  /** Binary and unary minus are told apart; otherwise only symbols are compared, whatever the class. */
  lemma EqualityExamples()
    ensures !SameToken(MakeOperator("-"), MakeOperator("-u"))
    ensures SameToken(Variable("sin"), MakeFunction("sin"))
    ensures SameToken(OpenParen, Variable("("))
  {
  }

  // ---------------------------------------------------------------- depth

  /** Parenthesis depth of a token sequence: opens minus closes. */
  function TokenDepth(ts: seq<Token>): int
  {
    if ts == [] then 0 else TokenDepth(ts[..|ts| - 1]) + DepthChange(ts[|ts| - 1])
  }

  /** How one token moves the parenthesis depth. */
  function DepthChange(t: Token): int
  {
    match t
    case OpenParen => 1
    case CloseParen => -1
    case _ => 0
  }

  /** No prefix of the sequence closes more parentheses than it opened. */
  predicate PrefixBalanced(ts: seq<Token>) {
    forall j :: 0 <= j <= |ts| ==> TokenDepth(ts[..j]) >= 0
  }
}
