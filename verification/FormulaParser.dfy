/** The two-phase parser of transition formulae: infix to postfix with an operator stack, postfix to
    a graph with an operand stack (infix_to_postfix and postfix_to_graph of src/inter-aut.cc). */
module FormulaParser {
  import opened Counting
  import opened Options

  datatype OperatorType = Neg | And | Or

  /** A token after `create_node`; operands keep their name. */
  datatype Token = Operand(name: string) | Operator(op: OperatorType) | LeftParenthesis | RightParenthesis

  /** `lower_precedence`: from the lowest to the highest, | < & < !. */
  predicate LowerPrecedence(op1: OperatorType, op2: OperatorType) {
    !(op1 == Neg || (op1 == And && op2 != Neg))
  }

  // ---------- The grammar ----------

  /** A disjunction of conjunctions of (negated) operands or parenthesised disjunctions. */
  datatype Disjunction = OneConjunction(c: Conjunction) | Disjoin(left: Disjunction, right: Conjunction)
  datatype Conjunction = OneLiteral(l: Literal) | Conjoin(first: Literal, rest: Conjunction)
  datatype Literal = Atom(name: string) | Negate(arg: Literal) | Parens(d: Disjunction)

  function DisjunctionTokens(d: Disjunction): seq<Token> {
    match d
    case OneConjunction(c) => ConjunctionTokens(c)
    case Disjoin(left, right) => DisjunctionTokens(left) + [Operator(Or)] + ConjunctionTokens(right)
  }

  function ConjunctionTokens(c: Conjunction): seq<Token> {
    match c
    case OneLiteral(l) => LiteralTokens(l)
    case Conjoin(first, rest) => LiteralTokens(first) + [Operator(And)] + ConjunctionTokens(rest)
  }

  function LiteralTokens(l: Literal): seq<Token> {
    match l
    case Atom(name) => [Operand(name)]
    case Negate(arg) => [Operator(Neg)] + LiteralTokens(arg)
    case Parens(d) => [LeftParenthesis] + DisjunctionTokens(d) + [RightParenthesis]
  }

  /** The truth value the grammar gives, ! binding tighter than & and & tighter than |. */
  predicate DisjunctionValue(d: Disjunction, env: string -> bool) {
    match d
    case OneConjunction(c) => ConjunctionValue(c, env)
    case Disjoin(left, right) => DisjunctionValue(left, env) || ConjunctionValue(right, env)
  }

  predicate ConjunctionValue(c: Conjunction, env: string -> bool) {
    match c
    case OneLiteral(l) => LiteralValue(l, env)
    case Conjoin(first, rest) => LiteralValue(first, env) && ConjunctionValue(rest, env)
  }

  predicate LiteralValue(l: Literal, env: string -> bool) {
    match l
    case Atom(name) => env(name)
    case Negate(arg) => !LiteralValue(arg, env)
    case Parens(d) => DisjunctionValue(d, env)
  }

  // ---------- Infix to postfix ----------

  /** What the loop over the operator stack outputs for `op`, and the stack it leaves.  The loop goes
      down to the nearest parenthesis and does not stop at an operator it keeps. */
  function PopThrough(stack: seq<Token>, op: OperatorType): (seq<Token>, seq<Token>) {
    if stack == [] || !stack[|stack| - 1].Operator? then ([], stack)
    else
      var top := stack[|stack| - 1];
      var (out, rest) := PopThrough(stack[..|stack| - 1], op);
      if LowerPrecedence(op, top.op) then ([top] + out, rest) else (out, rest + [top])
  }

  /** The loop that does so, erasing from the middle of the stack. */
  method PopOperators(stack0: seq<Token>, output0: seq<Token>, op: OperatorType) returns (stack: seq<Token>, output: seq<Token>)
    ensures output == output0 + PopThrough(stack0, op).0 && stack == PopThrough(stack0, op).1
  {
    stack, output := stack0, output0;
    ghost var kept := [];
    var j := |stack|;
    assert stack0[..j] == stack0;
    while j > 0
      invariant 0 <= j <= |stack0| && stack == stack0[..j] + kept
      invariant output + PopThrough(stack0[..j], op).0 == output0 + PopThrough(stack0, op).0
      invariant PopThrough(stack0[..j], op).1 + kept == PopThrough(stack0, op).1
    {
      var top := stack[j - 1];
      assert top == stack0[j - 1] && stack0[..j][..j - 1] == stack0[..j - 1];
      if !top.Operator? { break; }
      if LowerPrecedence(op, top.op) {
        output := output + [top];
        stack := stack[..j - 1] + stack[j..];
      } else {
        kept := [top] + kept;
      }
      j := j - 1;
    }
  }

  /** The state of the first phase: output and operator stack. */
  datatype Infix = Infix(output: seq<Token>, stack: seq<Token>)

  /** Pop up to the nearest parenthesis, and that too. */
  function CloseParenthesis(s: Infix): Infix
    decreases |s.stack|
  {
    if s.stack == [] then s
    else
      var n := |s.stack| - 1;
      if s.stack[n] == LeftParenthesis then Infix(s.output, s.stack[..n])
      else CloseParenthesis(Infix(s.output + [s.stack[n]], s.stack[..n]))
  }

  function ReadToken(s: Infix, t: Token): Infix {
    match t
    case Operand(_) => Infix(s.output + [t], s.stack)
    case LeftParenthesis => Infix(s.output, s.stack + [t])
    case RightParenthesis => CloseParenthesis(s)
    case Operator(op) =>
      var (out, rest) := PopThrough(s.stack, op);
      Infix(s.output + out, rest + [t])
  }

  function ReadTokens(s: Infix, tokens: seq<Token>): Infix
    decreases |tokens|
  {
    if tokens == [] then s else ReadTokens(ReadToken(s, tokens[0]), tokens[1..])
  }

  lemma {:induction false} ReadConcat(s: Infix, a: seq<Token>, b: seq<Token>)
    ensures ReadTokens(s, a + b) == ReadTokens(ReadTokens(s, a), b)
    decreases |a|
  {
    if a == [] {
      assert a + b == b;
    } else {
      assert (a + b)[1..] == a[1..] + b;
      ReadConcat(ReadToken(s, a[0]), a[1..], b);
    }
  }

  lemma ReadOne(s: Infix, t: Token)
    ensures ReadTokens(s, [t]) == ReadToken(s, t)
  {
    assert ReadTokens(ReadToken(s, t), []) == ReadToken(s, t);
  }

  lemma ReadAround(s: Infix, a: seq<Token>, t: Token, b: seq<Token>)
    ensures ReadTokens(s, a + [t] + b) == ReadTokens(ReadToken(ReadTokens(s, a), t), b)
  {
    hide ReadTokens, ReadToken;
    ReadConcat(s, a + [t], b);
    ReadConcat(s, a, [t]);
    ReadOne(ReadTokens(s, a), t);
  }

  // ---------- What the grammar makes of the stacks ----------

  /** The operators an expression leaves on the stack once its tokens have been read */
  function LiteralPending(l: Literal): seq<Token> {
    match l
    case Negate(arg) => [Operator(Neg)] + LiteralPending(arg)
    case _ => []
  }

  function ConjunctionPending(c: Conjunction): seq<Token> {
    match c
    case OneLiteral(l) => LiteralPending(l)
    case Conjoin(_, rest) => [Operator(And)] + ConjunctionPending(rest)
  }

  function DisjunctionPending(d: Disjunction): seq<Token> {
    match d
    case OneConjunction(c) => ConjunctionPending(c)
    case Disjoin(_, right) => [Operator(Or)] + ConjunctionPending(right)
  }

  /** The postfix form of an expression */
  function LiteralPostfix(l: Literal): seq<Token> {
    match l
    case Atom(name) => [Operand(name)]
    case Negate(arg) => LiteralPostfix(arg) + [Operator(Neg)]
    case Parens(d) => DisjunctionPostfix(d)
  }

  function ConjunctionPostfix(c: Conjunction): seq<Token> {
    match c
    case OneLiteral(l) => LiteralPostfix(l)
    case Conjoin(first, rest) => LiteralPostfix(first) + ConjunctionPostfix(rest) + [Operator(And)]
  }

  function DisjunctionPostfix(d: Disjunction): seq<Token> {
    match d
    case OneConjunction(c) => ConjunctionPostfix(c)
    case Disjoin(left, right) => DisjunctionPostfix(left) + ConjunctionPostfix(right) + [Operator(Or)]
  }

  /** Only operators of a kind that & does not pop lie above the nearest parenthesis. */
  predicate NoNegation(stack: seq<Token>) {
    stack == [] || !stack[|stack| - 1].Operator?
    || (stack[|stack| - 1].op != Neg && NoNegation(stack[..|stack| - 1]))
  }

  /** The stack is empty or has a parenthesis on top. */
  predicate AtSegmentStart(stack: seq<Token>) {
    stack == [] || !stack[|stack| - 1].Operator?
  }

  lemma {:induction false} NothingPopped(stack: seq<Token>)
    requires NoNegation(stack)
    ensures PopThrough(stack, And) == ([], stack)
  {
    if !AtSegmentStart(stack) {
      NothingPopped(stack[..|stack| - 1]);
      assert stack[..|stack| - 1] + [stack[|stack| - 1]] == stack;
    }
  }

  lemma {:induction false} NegationPopsNothing(stack: seq<Token>)
    ensures PopThrough(stack, Neg) == ([], stack)
  {
    if !AtSegmentStart(stack) {
      NegationPopsNothing(stack[..|stack| - 1]);
      assert stack[..|stack| - 1] + [stack[|stack| - 1]] == stack;
    }
  }

  ghost predicate AllOperators(s: seq<Token>) {
    forall t <- s :: t.Operator?
  }

  /** What an incoming operator pops if everything in `pending` is to be popped and nothing below. */
  lemma {:induction false} AllPopped(stack: seq<Token>, pending: seq<Token>, op: OperatorType)
    requires AllOperators(pending) && (forall t <- pending :: LowerPrecedence(op, t.op))
    requires PopThrough(stack, op) == ([], stack)
    ensures PopThrough(stack + pending, op) == (Reversed(pending), stack)
  {
    if pending == [] {
      assert stack + pending == stack;
    } else {
      var n := |pending| - 1;
      assert pending[n] in pending && (stack + pending)[..|stack + pending| - 1] == stack + pending[..n];
      AllPopped(stack, pending[..n], op);
    }
  }

  /** `s` after more output and more pending operators */
  function Extended(s: Infix, output: seq<Token>, pending: seq<Token>): Infix {
    Infix(s.output + output, s.stack + pending)
  }

  lemma ExtendedTwice(s: Infix, out1: seq<Token>, pending1: seq<Token>, out2: seq<Token>, pending2: seq<Token>)
    ensures Extended(Extended(s, out1, pending1), out2, pending2) == Extended(s, out1 + out2, pending1 + pending2)
  {
    assert s.output + out1 + out2 == s.output + (out1 + out2);
    assert s.stack + pending1 + pending2 == s.stack + (pending1 + pending2);
  }

  lemma ExtendedByOperator(s: Infix, output: seq<Token>, op: OperatorType)
    requires op != Neg && NoNegation(s.stack)
    ensures NoNegation(Extended(s, output, [Operator(op)]).stack)
  {
    var stack := s.stack + [Operator(op)];
    assert stack[..|stack| - 1] == s.stack;
  }

  /** An operator read after an operand whose pending operators it pops. */
  lemma OperatorRead(s: Infix, out: seq<Token>, pending: seq<Token>, op: OperatorType)
    requires AllOperators(pending) && (forall t <- pending :: LowerPrecedence(op, t.op))
    requires PopThrough(s.stack, op) == ([], s.stack)
    ensures ReadToken(Extended(s, out, pending), Operator(op)) == Extended(s, out + Reversed(pending), [Operator(op)])
  {
    AllPopped(s.stack, pending, op);
    hide PopThrough, Reversed, AllOperators;
    assert s.output + out + Reversed(pending) == s.output + (out + Reversed(pending));
  }

  lemma {:induction false} LiteralPendingNegations(l: Literal)
    ensures forall t <- LiteralPending(l) :: t == Operator(Neg)
  {
    if l.Negate? { LiteralPendingNegations(l.arg); }
  }

  lemma {:induction false} ConjunctionPendingOperators(c: Conjunction)
    ensures AllOperators(ConjunctionPending(c))
  {
    match c
    case OneLiteral(l) => LiteralPendingNegations(l);
    case Conjoin(_, rest) => ConjunctionPendingOperators(rest);
  }

  lemma {:induction false} ParenthesisClosed(output: seq<Token>, stack: seq<Token>, pending: seq<Token>)
    requires AllOperators(pending)
    ensures CloseParenthesis(Infix(output, stack + [LeftParenthesis] + pending)) == Infix(output + Reversed(pending), stack)
    decreases |pending|
  {
    var s := stack + [LeftParenthesis] + pending;
    if pending == [] {
      assert s[..|s| - 1] == stack && s[|s| - 1] == LeftParenthesis && output + [] == output;
    } else {
      var n := |pending| - 1;
      assert pending[n] in pending && s[|s| - 1] == pending[n] && s[..|s| - 1] == stack + [LeftParenthesis] + pending[..n];
      ParenthesisClosed(output + [pending[n]], stack, pending[..n]);
      assert output + [pending[n]] + Reversed(pending[..n]) == output + Reversed(pending);
    }
  }

  // ---------- The first phase yields the postfix form ----------

  /** What an expression has added to the output when its tokens have been read */
  function LiteralOutput(l: Literal): seq<Token> {
    match l
    case Atom(name) => [Operand(name)]
    case Negate(arg) => LiteralOutput(arg)
    case Parens(d) => DisjunctionPostfix(d)
  }

  function ConjunctionOutput(c: Conjunction): seq<Token> {
    match c
    case OneLiteral(l) => LiteralOutput(l)
    case Conjoin(first, rest) => LiteralPostfix(first) + ConjunctionOutput(rest)
  }

  function DisjunctionOutput(d: Disjunction): seq<Token> {
    match d
    case OneConjunction(c) => ConjunctionOutput(c)
    case Disjoin(left, right) => DisjunctionPostfix(left) + ConjunctionOutput(right)
  }

  lemma {:induction false} LiteralParts(l: Literal)
    ensures LiteralOutput(l) + Reversed(LiteralPending(l)) == LiteralPostfix(l)
  {
    match l
    case Negate(arg) =>
      LiteralParts(arg);
      ReversedCons(Operator(Neg), LiteralPending(arg));
    case _ =>
  }

  lemma {:induction false} ConjunctionParts(c: Conjunction)
    ensures ConjunctionOutput(c) + Reversed(ConjunctionPending(c)) == ConjunctionPostfix(c)
  {
    match c
    case OneLiteral(l) => LiteralParts(l);
    case Conjoin(first, rest) =>
      ConjunctionParts(rest);
      ReversedCons(Operator(And), ConjunctionPending(rest));
  }

  lemma DisjunctionParts(d: Disjunction)
    ensures DisjunctionOutput(d) + Reversed(DisjunctionPending(d)) == DisjunctionPostfix(d)
    ensures AllOperators(DisjunctionPending(d))
  {
    match d
    case OneConjunction(c) =>
      ConjunctionParts(c);
      ConjunctionPendingOperators(c);
    case Disjoin(left, right) =>
      ConjunctionParts(right);
      ConjunctionPendingOperators(right);
      ReversedCons(Operator(Or), ConjunctionPending(right));
  }

  lemma {:induction false} LiteralRead(l: Literal, s: Infix)
    ensures ReadTokens(s, LiteralTokens(l)) == Extended(s, LiteralOutput(l), LiteralPending(l))
    decreases l
  {
    match l
    case Atom(name) =>
      ReadOne(s, Operand(name));
      assert s.stack + [] == s.stack;
    case Negate(arg) =>
      ReadConcat(s, [Operator(Neg)], LiteralTokens(arg));
      ReadOne(s, Operator(Neg));
      NegationPopsNothing(s.stack);
      var s' := Extended(s, [], [Operator(Neg)]);
      LiteralRead(arg, s');
      ExtendedTwice(s, [], [Operator(Neg)], LiteralOutput(arg), LiteralPending(arg));
      assert [] + LiteralOutput(arg) == LiteralOutput(arg);
    case Parens(d) =>
      ParensRead(d, s);
  }

  lemma OpenedAndClosed(s: Infix, output: seq<Token>, pending: seq<Token>)
    requires AllOperators(pending)
    ensures ReadToken(Extended(ReadToken(s, LeftParenthesis), output, pending), RightParenthesis) == Extended(s, output + Reversed(pending), [])
    ensures AtSegmentStart(ReadToken(s, LeftParenthesis).stack)
  {
    ParenthesisClosed(s.output + output, s.stack, pending);
    assert s.output + output + Reversed(pending) == s.output + (output + Reversed(pending)) && s.stack + [] == s.stack;
  }

  lemma {:induction false} ParensRead(d: Disjunction, s: Infix)
    ensures ReadTokens(s, [LeftParenthesis] + DisjunctionTokens(d) + [RightParenthesis]) == Extended(s, DisjunctionPostfix(d), [])
    decreases d, 1
  {
    hide *;
    var s1 := ReadToken(s, LeftParenthesis);
    DisjunctionParts(d);
    OpenedAndClosed(s, DisjunctionOutput(d), DisjunctionPending(d));
    ReadConcat(s, [LeftParenthesis] + DisjunctionTokens(d), [RightParenthesis]);
    ReadConcat(s, [LeftParenthesis], DisjunctionTokens(d));
    ReadOne(s, LeftParenthesis);
    DisjunctionRead(d, s1);
    ReadOne(Extended(s1, DisjunctionOutput(d), DisjunctionPending(d)), RightParenthesis);
  }

  /** Reading a conjunction on a stack with no negation above the nearest parenthesis. */
  lemma {:induction false} ConjunctionRead(c: Conjunction, s: Infix)
    requires NoNegation(s.stack)
    ensures ReadTokens(s, ConjunctionTokens(c)) == Extended(s, ConjunctionOutput(c), ConjunctionPending(c))
    decreases c
  {
    match c
    case OneLiteral(l) => LiteralRead(l, s);
    case Conjoin(first, rest) =>
      assert forall t | t == Operator(Neg) :: LowerPrecedence(And, t.op);
      assert AllOperators(LiteralPending(first)) by { LiteralPendingNegations(first); }
      hide ReadTokens, ReadToken, NoNegation, Reversed, PopThrough, LiteralOutput, LiteralPending, LiteralPostfix, LiteralTokens, LowerPrecedence, Extended, AllOperators;
      var s2 := Extended(s, LiteralPostfix(first), [Operator(And)]);
      ReadAround(s, LiteralTokens(first), Operator(And), ConjunctionTokens(rest));
      LiteralRead(first, s);
      LiteralPendingNegations(first);
      NothingPopped(s.stack);
      OperatorRead(s, LiteralOutput(first), LiteralPending(first), And);
      LiteralParts(first);
      ExtendedByOperator(s, LiteralPostfix(first), And);
      ConjunctionRead(rest, s2);
      ExtendedTwice(s, LiteralPostfix(first), [Operator(And)], ConjunctionOutput(rest), ConjunctionPending(rest));
  }

  lemma SegmentStart(stack: seq<Token>)
    requires AtSegmentStart(stack)
    ensures PopThrough(stack, Or) == ([], stack) && NoNegation(stack)
  {
  }

  /** Reading a disjunction at the start of a segment of the stack. */
  lemma {:induction false} DisjunctionRead(d: Disjunction, s: Infix)
    requires AtSegmentStart(s.stack)
    ensures ReadTokens(s, DisjunctionTokens(d)) == Extended(s, DisjunctionOutput(d), DisjunctionPending(d))
    decreases d, 0
  {
    SegmentStart(s.stack);
    match d
    case OneConjunction(c) => ConjunctionRead(c, s);
    case Disjoin(left, right) =>
      assert forall op :: LowerPrecedence(Or, op);
      hide ReadTokens, ReadToken, NoNegation, AtSegmentStart, Reversed, PopThrough, LowerPrecedence, ConjunctionOutput, ConjunctionPending, ConjunctionTokens, Extended;
      var s2 := Extended(s, DisjunctionPostfix(left), [Operator(Or)]);
      ReadAround(s, DisjunctionTokens(left), Operator(Or), ConjunctionTokens(right));
      DisjunctionRead(left, s);
      DisjunctionParts(left);
      OperatorRead(s, DisjunctionOutput(left), DisjunctionPending(left), Or);
      ExtendedByOperator(s, DisjunctionPostfix(left), Or);
      ConjunctionRead(right, s2);
      ExtendedTwice(s, DisjunctionPostfix(left), [Operator(Or)], ConjunctionOutput(right), ConjunctionPending(right));
  }

  // ---------- Postfix to a graph ----------

  /** `FormulaGraph`: a node and its children; the default graph is `NoGraph`. */
  datatype Graph = NoGraph | Leaf(name: string) | NegNode(child: Graph) | BinaryNode(op: OperatorType, first: Graph, second: Graph)

  predicate GraphValue(g: Graph, env: string -> bool) {
    match g
    case NoGraph => false
    case Leaf(name) => env(name)
    case NegNode(child) => !GraphValue(child, env)
    case BinaryNode(op, first, second) =>
      if op == And then GraphValue(first, env) && GraphValue(second, env) else GraphValue(first, env) || GraphValue(second, env)
  }

  function LiteralGraph(l: Literal): Graph {
    match l
    case Atom(name) => Leaf(name)
    case Negate(arg) => NegNode(LiteralGraph(arg))
    case Parens(d) => DisjunctionGraph(d)
  }

  function ConjunctionGraph(c: Conjunction): Graph {
    match c
    case OneLiteral(l) => LiteralGraph(l)
    case Conjoin(first, rest) => BinaryNode(And, LiteralGraph(first), ConjunctionGraph(rest))
  }

  function DisjunctionGraph(d: Disjunction): Graph {
    match d
    case OneConjunction(c) => ConjunctionGraph(c)
    case Disjoin(left, right) => BinaryNode(Or, DisjunctionGraph(left), ConjunctionGraph(right))
  }

  /** One token of the postfix form on the operand stack; None is an underflow or a token that may
      not occur. */
  function BuildToken(stack: seq<Graph>, t: Token): Option<seq<Graph>> {
    var n := |stack|;
    match t
    case Operand(name) => Some(stack + [Leaf(name)])
    case Operator(op) =>
      if op == Neg then
        if n == 0 then None else Some(stack[..n - 1] + [NegNode(stack[n - 1])])
      else
        if n < 2 then None else Some(stack[..n - 2] + [BinaryNode(op, stack[n - 2], stack[n - 1])])
    case _ => None
  }

  function Build(stack: seq<Graph>, postfix: seq<Token>): Option<seq<Graph>>
    decreases |postfix|
  {
    if postfix == [] then Some(stack)
    else
      match BuildToken(stack, postfix[0])
      case None => None
      case Some(next) => Build(next, postfix[1..])
  }

  lemma {:induction false} BuildConcat(stack: seq<Graph>, a: seq<Token>, b: seq<Token>)
    ensures Build(stack, a + b) == match Build(stack, a) case None => None case Some(next) => Build(next, b)
    decreases |a|
  {
    if a == [] {
      assert a + b == b;
    } else {
      assert (a + b)[1..] == a[1..] + b;
      match BuildToken(stack, a[0])
      case None =>
      case Some(next) => BuildConcat(next, a[1..], b);
    }
  }

  lemma BuildOne(stack: seq<Graph>, t: Token)
    ensures Build(stack, [t]) == BuildToken(stack, t)
  {
    assert forall next :: Build(next, []) == Some(next);
  }

  lemma BuildBinary(stack: seq<Graph>, op: OperatorType, g: Graph, h: Graph)
    requires op != Neg
    ensures Build(stack + [g] + [h], [Operator(op)]) == Some(stack + [BinaryNode(op, g, h)])
  {
    var s := stack + [g] + [h];
    BuildOne(s, Operator(op));
    assert s[..|s| - 2] == stack;
  }

  lemma {:induction false} LiteralBuilt(l: Literal, stack: seq<Graph>)
    ensures Build(stack, LiteralPostfix(l)) == Some(stack + [LiteralGraph(l)])
    decreases l
  {
    match l
    case Atom(name) => BuildOne(stack, Operand(name));
    case Negate(arg) =>
      LiteralBuilt(arg, stack);
      BuildConcat(stack, LiteralPostfix(arg), [Operator(Neg)]);
      var s := stack + [LiteralGraph(arg)];
      BuildOne(s, Operator(Neg));
      assert s[..|s| - 1] == stack;
    case Parens(d) => DisjunctionBuilt(d, stack);
  }

  lemma {:induction false} ConjunctionBuilt(c: Conjunction, stack: seq<Graph>)
    ensures Build(stack, ConjunctionPostfix(c)) == Some(stack + [ConjunctionGraph(c)])
    decreases c
  {
    match c
    case OneLiteral(l) => LiteralBuilt(l, stack);
    case Conjoin(first, rest) =>
      hide Build, LiteralGraph, LiteralPostfix;
      LiteralBuilt(first, stack);
      ConjunctionBuilt(rest, stack + [LiteralGraph(first)]);
      BuildConcat(stack, LiteralPostfix(first), ConjunctionPostfix(rest));
      BuildConcat(stack, LiteralPostfix(first) + ConjunctionPostfix(rest), [Operator(And)]);
      BuildBinary(stack, And, LiteralGraph(first), ConjunctionGraph(rest));
  }

  /** A postfix form leaves its graph on top of the operand stack, without underflow. */
  lemma {:induction false} DisjunctionBuilt(d: Disjunction, stack: seq<Graph>)
    ensures Build(stack, DisjunctionPostfix(d)) == Some(stack + [DisjunctionGraph(d)])
    decreases d
  {
    match d
    case OneConjunction(c) => ConjunctionBuilt(c, stack);
    case Disjoin(left, right) =>
      hide Build, ConjunctionGraph, ConjunctionPostfix;
      DisjunctionBuilt(left, stack);
      ConjunctionBuilt(right, stack + [DisjunctionGraph(left)]);
      BuildConcat(stack, DisjunctionPostfix(left), ConjunctionPostfix(right));
      BuildConcat(stack, DisjunctionPostfix(left) + ConjunctionPostfix(right), [Operator(Or)]);
      BuildBinary(stack, Or, DisjunctionGraph(left), ConjunctionGraph(right));
  }

  // ---------- Parentheses ----------

  /** Opening minus closing parentheses */
  ghost function Depth(tokens: seq<Token>): int {
    if tokens == [] then 0
    else
      var last := tokens[|tokens| - 1];
      Depth(tokens[..|tokens| - 1]) + if last == LeftParenthesis then 1 else if last == RightParenthesis then -1 else 0
  }

  /** No closing parenthesis without an open one before it */
  ghost predicate Balanced(tokens: seq<Token>) {
    forall k | 0 <= k <= |tokens| :: Depth(tokens[..k]) >= 0
  }

  lemma {:induction false} DepthConcat(a: seq<Token>, b: seq<Token>)
    ensures Depth(a + b) == Depth(a) + Depth(b)
  {
    if b == [] {
      assert a + b == a;
    } else {
      assert (a + b)[..|a + b| - 1] == a + b[..|b| - 1];
      DepthConcat(a, b[..|b| - 1]);
    }
  }

  lemma BalancedConcat(a: seq<Token>, b: seq<Token>)
    requires Balanced(a) && Balanced(b)
    ensures Balanced(a + b)
  {
    assert a[..|a|] == a;
    forall k | 0 <= k <= |a + b| ensures Depth((a + b)[..k]) >= 0 {
      if k <= |a| {
        assert (a + b)[..k] == a[..k];
      } else {
        assert (a + b)[..k] == a + b[..k - |a|];
        DepthConcat(a, b[..k - |a|]);
      }
    }
  }

  lemma BalancedOne(t: Token)
    requires t != RightParenthesis
    ensures Balanced([t]) && Depth([t]) == if t == LeftParenthesis then 1 else 0
  {
    assert [t][..0] == [] && [t][..1] == [t];
    assert Depth([t]) == Depth([]) + if t == LeftParenthesis then 1 else 0;
  }

  lemma BalancedInParentheses(s: seq<Token>)
    requires Balanced(s) && Depth(s) == 0
    ensures Balanced([LeftParenthesis] + s + [RightParenthesis]) && Depth([LeftParenthesis] + s + [RightParenthesis]) == 0
  {
    BalancedOne(LeftParenthesis);
    BalancedConcat([LeftParenthesis], s);
    DepthConcat([LeftParenthesis], s);
    var r := [LeftParenthesis] + s;
    var t := r + [RightParenthesis];
    assert t[..|t| - 1] == r;
    forall k | 0 <= k <= |t| ensures Depth(t[..k]) >= 0 {
      if k <= |r| { assert t[..k] == r[..k]; } else { assert t[..k] == t; }
    }
  }

  lemma {:induction false} LiteralBalanced(l: Literal)
    ensures Balanced(LiteralTokens(l)) && Depth(LiteralTokens(l)) == 0
    decreases l
  {
    hide Balanced, Depth;
    match l
    case Atom(name) => BalancedOne(Operand(name));
    case Negate(arg) =>
      BalancedOne(Operator(Neg));
      LiteralBalanced(arg);
      BalancedConcat([Operator(Neg)], LiteralTokens(arg));
      DepthConcat([Operator(Neg)], LiteralTokens(arg));
    case Parens(d) =>
      DisjunctionBalanced(d);
      BalancedInParentheses(DisjunctionTokens(d));
  }

  lemma BalancedAround(a: seq<Token>, op: OperatorType, b: seq<Token>)
    requires Balanced(a) && Depth(a) == 0 && Balanced(b) && Depth(b) == 0
    ensures Balanced(a + [Operator(op)] + b) && Depth(a + [Operator(op)] + b) == 0
  {
    hide Balanced, Depth;
    BalancedOne(Operator(op));
    BalancedConcat(a, [Operator(op)]);
    DepthConcat(a, [Operator(op)]);
    BalancedConcat(a + [Operator(op)], b);
    DepthConcat(a + [Operator(op)], b);
  }

  lemma {:induction false} ConjunctionBalanced(c: Conjunction)
    ensures Balanced(ConjunctionTokens(c)) && Depth(ConjunctionTokens(c)) == 0
    decreases c
  {
    match c
    case OneLiteral(l) => LiteralBalanced(l);
    case Conjoin(first, rest) =>
      LiteralBalanced(first);
      ConjunctionBalanced(rest);
      BalancedAround(LiteralTokens(first), And, ConjunctionTokens(rest));
  }

  lemma {:induction false} DisjunctionBalanced(d: Disjunction)
    ensures Balanced(DisjunctionTokens(d)) && Depth(DisjunctionTokens(d)) == 0
    decreases d
  {
    match d
    case OneConjunction(c) => ConjunctionBalanced(c);
    case Disjoin(left, right) =>
      DisjunctionBalanced(left);
      ConjunctionBalanced(right);
      BalancedAround(DisjunctionTokens(left), Or, ConjunctionTokens(right));
  }

  /** How many parentheses are open on the stack */
  ghost function OpenParentheses(stack: seq<Token>): nat {
    if stack == [] then 0
    else OpenParentheses(stack[..|stack| - 1]) + if stack[|stack| - 1] == LeftParenthesis then 1 else 0
  }

  lemma OpenSnoc(stack: seq<Token>, t: Token)
    ensures OpenParentheses(stack + [t]) == OpenParentheses(stack) + if t == LeftParenthesis then 1 else 0
  {
    assert (stack + [t])[..|stack|] == stack;
  }

  lemma {:induction false} PopKeepsParentheses(stack: seq<Token>, op: OperatorType)
    ensures OpenParentheses(PopThrough(stack, op).1) == OpenParentheses(stack)
  {
    if !AtSegmentStart(stack) {
      var init, top := stack[..|stack| - 1], stack[|stack| - 1];
      PopKeepsParentheses(init, op);
      OpenSnoc(PopThrough(init, op).1, top);
    }
  }

  lemma {:induction false} CloseTakesOne(s: Infix)
    requires OpenParentheses(s.stack) > 0
    ensures OpenParentheses(CloseParenthesis(s).stack) == OpenParentheses(s.stack) - 1
    decreases |s.stack|
  {
    var n := |s.stack| - 1;
    if s.stack[n] != LeftParenthesis { CloseTakesOne(Infix(s.output + [s.stack[n]], s.stack[..n])); }
  }

  lemma ReadKeepsCount(s: Infix, t: Token)
    requires t == RightParenthesis ==> OpenParentheses(s.stack) > 0
    ensures OpenParentheses(ReadToken(s, t).stack) == OpenParentheses(s.stack) + Depth([t])
  {
    assert Depth([t]) == if t == LeftParenthesis then 1 else if t == RightParenthesis then -1 else 0;
    match t
    case Operand(_) =>
    case LeftParenthesis => OpenSnoc(s.stack, t);
    case RightParenthesis => CloseTakesOne(s);
    case Operator(op) =>
      PopKeepsParentheses(s.stack, op);
      OpenSnoc(PopThrough(s.stack, op).1, t);
  }

  // ---------- The methods ----------

  /** Output operators down to the nearest open parenthesis, which is removed. */
  method CloseSegment(stack0: seq<Token>, output0: seq<Token>) returns (stack: seq<Token>, output: seq<Token>)
    requires OpenParentheses(stack0) > 0
    ensures Infix(output, stack) == CloseParenthesis(Infix(output0, stack0))
  {
    stack, output := stack0, output0;
    while stack[|stack| - 1] != LeftParenthesis
      invariant OpenParentheses(stack) > 0
      invariant CloseParenthesis(Infix(output, stack)) == CloseParenthesis(Infix(output0, stack0))
      decreases |stack|
    {
      output := output + [stack[|stack| - 1]];
      stack := stack[..|stack| - 1];
    }
    stack := stack[..|stack| - 1];
  }

  /** `infix_to_postfix`: the stack never underflows if parentheses are balanced. */
  method InfixToPostfix(tokens: seq<Token>) returns (output: seq<Token>)
    requires Balanced(tokens)
    ensures var s := ReadTokens(Infix([], []), tokens); output == s.output + Reversed(s.stack)
  {
    var opstack: seq<Token> := [];
    output := [];
    ghost var start := Infix([], []);
    assert tokens[..0] == [] && Depth([]) == 0;
    for k := 0 to |tokens|
      invariant Infix(output, opstack) == ReadTokens(start, tokens[..k])
      invariant OpenParentheses(opstack) == Depth(tokens[..k])
    {
      var token := tokens[k];
      ghost var before := Infix(output, opstack);
      assert tokens[..k + 1] == tokens[..k] + [token];
      DepthConcat(tokens[..k], [token]);
      ReadConcat(start, tokens[..k], [token]);
      ReadOne(before, token);
      assert Depth(tokens[..k + 1]) >= 0;
      assert Depth([token]) == if token == LeftParenthesis then 1 else if token == RightParenthesis then -1 else 0;
      ReadKeepsCount(before, token);
      hide ReadTokens, Depth, OpenParentheses, PopThrough, CloseParenthesis;
      match token
      case Operand(_) => output := output + [token];
      case LeftParenthesis => opstack := opstack + [token];
      case RightParenthesis => opstack, output := CloseSegment(opstack, output);
      case Operator(op) =>
        opstack, output := PopOperators(opstack, output, op);
        opstack := opstack + [token];
    }
    assert tokens[..|tokens|] == tokens;
    output := Drain(opstack, output);
  }

  /** Output what is left on the operator stack. */
  method Drain(stack0: seq<Token>, output0: seq<Token>) returns (output: seq<Token>)
    ensures output == output0 + Reversed(stack0)
  {
    output := output0;
    var stack := stack0;
    while stack != []
      invariant output + Reversed(stack) == output0 + Reversed(stack0)
      decreases |stack|
    {
      output := output + [stack[|stack| - 1]];
      stack := stack[..|stack| - 1];
    }
  }

  /** `postfix_to_graph`: the default graph unless exactly one operand is left. */
  method PostfixToGraph(postfix: seq<Token>) returns (g: Graph)
    requires Build([], postfix).Some?
    ensures var stack := Build([], postfix).value; g == if |stack| == 1 then stack[0] else NoGraph
  {
    var opstack: seq<Graph> := [];
    assert postfix[0..] == postfix;
    for k := 0 to |postfix|
      invariant Build(opstack, postfix[k..]) == Build([], postfix)
    {
      var node, n := postfix[k], |opstack|;
      assert postfix[k..][0] == node && postfix[k..][1..] == postfix[k + 1..];
      match node
      case Operand(name) => opstack := opstack + [Leaf(name)];
      case Operator(op) =>
        if op == Neg {
          opstack := opstack[..n - 1] + [NegNode(opstack[n - 1])];
        } else {
          opstack := opstack[..n - 2] + [BinaryNode(op, opstack[n - 2], opstack[n - 1])];
        }
      case _ => assert false;
    }
    g := if |opstack| == 1 then opstack[0] else NoGraph;
  }

  lemma {:induction false} LiteralGraphValue(l: Literal, env: string -> bool)
    ensures GraphValue(LiteralGraph(l), env) == LiteralValue(l, env)
    decreases l
  {
    match l
    case Atom(_) =>
    case Negate(arg) => LiteralGraphValue(arg, env);
    case Parens(d) => DisjunctionGraphValue(d, env);
  }

  lemma {:induction false} ConjunctionGraphValue(c: Conjunction, env: string -> bool)
    ensures GraphValue(ConjunctionGraph(c), env) == ConjunctionValue(c, env)
    decreases c
  {
    match c
    case OneLiteral(l) => LiteralGraphValue(l, env);
    case Conjoin(first, rest) =>
      LiteralGraphValue(first, env);
      ConjunctionGraphValue(rest, env);
  }

  lemma {:induction false} DisjunctionGraphValue(d: Disjunction, env: string -> bool)
    ensures GraphValue(DisjunctionGraph(d), env) == DisjunctionValue(d, env)
    decreases d
  {
    match d
    case OneConjunction(c) => ConjunctionGraphValue(c, env);
    case Disjoin(left, right) =>
      DisjunctionGraphValue(left, env);
      ConjunctionGraphValue(right, env);
  }

  /** The first phase yields the postfix form of the expression whose tokens it is given. */
  lemma InfixOfExpression(d: Disjunction)
    ensures var s := ReadTokens(Infix([], []), DisjunctionTokens(d)); s.output + Reversed(s.stack) == DisjunctionPostfix(d)
  {
    DisjunctionRead(d, Infix([], []));
    DisjunctionParts(d);
    assert [] + DisjunctionOutput(d) == DisjunctionOutput(d) && [] + DisjunctionPending(d) == DisjunctionPending(d);
  }

  /** The operands of the tokens, in order */
  ghost function OperandNames(tokens: seq<Token>): seq<string> {
    if tokens == [] then []
    else (if tokens[0].Operand? then [tokens[0].name] else []) + OperandNames(tokens[1..])
  }

  /** The leaves of a tree, from left to right */
  ghost function Leaves(g: Graph): seq<string> {
    match g
    case NoGraph => []
    case Leaf(name) => [name]
    case NegNode(child) => Leaves(child)
    case BinaryNode(_, first, second) => Leaves(first) + Leaves(second)
  }

  lemma {:induction false} OperandNamesConcat(a: seq<Token>, b: seq<Token>)
    ensures OperandNames(a + b) == OperandNames(a) + OperandNames(b)
    decreases |a|
  {
    if a == [] {
      assert a + b == b;
    } else {
      assert (a + b)[1..] == a[1..] + b;
      OperandNamesConcat(a[1..], b);
    }
  }

  lemma NoOperand(t: Token)
    ensures OperandNames([t]) == if t.Operand? then [t.name] else []
  {
    assert [t][1..] == [];
  }

  lemma OperandsAround(a: seq<Token>, t: Token, b: seq<Token>)
    requires !t.Operand?
    ensures OperandNames(a + [t] + b) == OperandNames(a) + OperandNames(b)
  {
    hide OperandNames;
    NoOperand(t);
    OperandNamesConcat(a, [t]);
    OperandNamesConcat(a + [t], b);
    assert OperandNames(a) + [] == OperandNames(a);
  }

  lemma {:induction false} LiteralLeaves(l: Literal)
    ensures Leaves(LiteralGraph(l)) == OperandNames(LiteralTokens(l))
    decreases l
  {
    match l
    case Atom(name) => NoOperand(Operand(name));
    case Negate(arg) =>
      LiteralLeaves(arg);
      OperandsAround([], Operator(Neg), LiteralTokens(arg));
      assert [] + [Operator(Neg)] == [Operator(Neg)] && [] + OperandNames(LiteralTokens(arg)) == OperandNames(LiteralTokens(arg));
    case Parens(d) =>
      DisjunctionLeaves(d);
      OperandsAround([], LeftParenthesis, DisjunctionTokens(d));
      OperandsAround([LeftParenthesis] + DisjunctionTokens(d), RightParenthesis, []);
      assert [] + [LeftParenthesis] == [LeftParenthesis] && LiteralTokens(l) + [] == LiteralTokens(l);
      assert OperandNames(LiteralTokens(l)) == OperandNames([LeftParenthesis] + DisjunctionTokens(d)) + [];
  }

  lemma {:induction false} ConjunctionLeaves(c: Conjunction)
    ensures Leaves(ConjunctionGraph(c)) == OperandNames(ConjunctionTokens(c))
    decreases c
  {
    match c
    case OneLiteral(l) => LiteralLeaves(l);
    case Conjoin(first, rest) =>
      LiteralLeaves(first);
      ConjunctionLeaves(rest);
      OperandsAround(LiteralTokens(first), Operator(And), ConjunctionTokens(rest));
  }

  /** The tree has the operands as its leaves, in the order of the tokens. */
  lemma {:induction false} DisjunctionLeaves(d: Disjunction)
    ensures Leaves(DisjunctionGraph(d)) == OperandNames(DisjunctionTokens(d))
    decreases d
  {
    match d
    case OneConjunction(c) => ConjunctionLeaves(c);
    case Disjoin(left, right) =>
      DisjunctionLeaves(left);
      ConjunctionLeaves(right);
      OperandsAround(DisjunctionTokens(left), Operator(Or), ConjunctionTokens(right));
  }

  /** The two phases turn the tokens of an expression into its tree, with its operands and its truth value. */
  method ParseFormula(tokens: seq<Token>, ghost d: Disjunction) returns (g: Graph)
    requires tokens == DisjunctionTokens(d)
    ensures g == DisjunctionGraph(d) && Leaves(g) == OperandNames(tokens)
    ensures forall env: string -> bool :: GraphValue(g, env) == DisjunctionValue(d, env)
  {
    DisjunctionBalanced(d);
    InfixOfExpression(d);
    var postfix := InfixToPostfix(tokens);
    DisjunctionBuilt(d, []);
    DisjunctionLeaves(d);
    g := PostfixToGraph(postfix);
    forall env: string -> bool ensures GraphValue(g, env) == DisjunctionValue(d, env) { DisjunctionGraphValue(d, env); }
  }

  /** The grammar is unambiguous up to the truth value, and even to the tree. */
  lemma Unambiguous(d: Disjunction, e: Disjunction)
    requires DisjunctionTokens(d) == DisjunctionTokens(e)
    ensures DisjunctionGraph(d) == DisjunctionGraph(e)
    ensures forall env: string -> bool :: DisjunctionValue(d, env) == DisjunctionValue(e, env)
  {
    InfixOfExpression(d);
    InfixOfExpression(e);
    DisjunctionBuilt(d, []);
    DisjunctionBuilt(e, []);
    assert ([] + [DisjunctionGraph(d)])[0] == ([] + [DisjunctionGraph(e)])[0];
    forall env: string -> bool ensures DisjunctionValue(d, env) == DisjunctionValue(e, env) {
      DisjunctionGraphValue(d, env);
      DisjunctionGraphValue(e, env);
    }
  }
}
