// The expression evaluator: infix tokens to postfix with an operator stack, and
// a stack machine for the postfix form.
module Evaluator {

  datatype Token =
    | Number(value: real, pos: int)
    | Operator(op: char, pos: int)
    | LeftParen(pos: int)
    | RightParen(pos: int)

  datatype Error =
    | Mismatch(openPos: int, closePos: int)
    | MissingOperand(op: char, pos: int)
    | DivisionByZero(pos: int)
    | UnknownOperator(op: char)
    | MissingOperator(leftover: nat)

  datatype Result<+T> = Ok(value: T) | Err(error: Error)

  datatype Assoc = LeftAssoc | RightAssoc

  // The operator table; a rune outside it reads as the zero entry.
  function Precedence(op: char): int {
    if op == '+' || op == '-' then 1 else if op == '*' || op == '/' then 2 else if op == '^' then 3 else 0
  }

  function Associativity(op: char): Assoc {
    if op == '^' then RightAssoc else LeftAssoc
  }

  predicate IsOperator(op: char) {
    op in {'+', '-', '*', '/', '^'}
  }

  // An operator on top of the stack is written out before cur is pushed.
  predicate Pops(top: char, cur: char) {
    Precedence(top) > Precedence(cur) ||
    (Precedence(top) == Precedence(cur) && Associativity(cur) == LeftAssoc)
  }

  // The translation as a state machine ----------------------------------------

  datatype Conv = Conv(output: seq<Token>, stack: seq<Token>)

  function Top(stack: seq<Token>): Token
    requires stack != []
  {
    stack[|stack| - 1]
  }

  function Rest(stack: seq<Token>): seq<Token>
    requires stack != []
  {
    stack[..|stack| - 1]
  }

  predicate PopsTop(stack: seq<Token>, op: char) {
    stack != [] && Top(stack).Operator? && Pops(Top(stack).op, op)
  }

  function PopWhile(c: Conv, op: char): Conv
    decreases |c.stack|
  {
    if PopsTop(c.stack, op) then PopWhile(Conv(c.output + [Top(c.stack)], Rest(c.stack)), op) else c
  }

  function PopToParen(c: Conv, pos: int): Result<Conv>
    decreases |c.stack|
  {
    if c.stack == [] then Err(Mismatch(-1, pos))
    else if Top(c.stack).LeftParen? then Ok(Conv(c.output, Rest(c.stack)))
    else PopToParen(Conv(c.output + [Top(c.stack)], Rest(c.stack)), pos)
  }

  function Step(c: Conv, t: Token): Result<Conv> {
    match t
    case Number(_, _) => Ok(Conv(c.output + [t], c.stack))
    case Operator(op, _) => var d := PopWhile(c, op); Ok(Conv(d.output, d.stack + [t]))
    case LeftParen(_) => Ok(Conv(c.output, c.stack + [t]))
    case RightParen(pos) => PopToParen(c, pos)
  }

  function Flush(c: Conv): Result<seq<Token>>
    decreases |c.stack|
  {
    if c.stack == [] then Ok(c.output)
    else if Top(c.stack).LeftParen? then Err(Mismatch(Top(c.stack).pos, -1))
    else Flush(Conv(c.output + [Top(c.stack)], Rest(c.stack)))
  }

  // Reads the remaining tokens and empties the stack.
  function Complete(c: Conv, tokens: seq<Token>): Result<seq<Token>>
    decreases |tokens|
  {
    if tokens == [] then Flush(c)
    else
      var d := Step(c, tokens[0]);
      if d.Err? then Err(d.error) else Complete(d.value, tokens[1..])
  }

  method InfixToPostfix(tokens: seq<Token>) returns (r: Result<seq<Token>>)
    ensures r == Complete(Conv([], []), tokens)
  {
    var output: seq<Token> := [];
    var stack: seq<Token> := [];
    var i := 0;
    while i < |tokens|
      invariant 0 <= i <= |tokens|
      invariant Complete(Conv([], []), tokens) == Complete(Conv(output, stack), tokens[i..])
    {
      var token := tokens[i];
      assert tokens[i..][0] == token && tokens[i..][1..] == tokens[i + 1..];
      match token {
        case Number(_, _) =>
          output := output + [token];
        case Operator(op, _) =>
          ghost var start := Conv(output, stack);
          while stack != []
            invariant PopWhile(start, op) == PopWhile(Conv(output, stack), op)
            decreases |stack|
          {
            var top := Top(stack);
            if !top.Operator? {
              break;
            }
            var topPrec, curPrec := Precedence(top.op), Precedence(op);
            if !(topPrec > curPrec || (topPrec == curPrec && Associativity(op) == LeftAssoc)) {
              break;
            }
            output, stack := output + [top], Rest(stack);
          }
          stack := stack + [token];
        case LeftParen(_) =>
          stack := stack + [token];
        case RightParen(pos) =>
          ghost var start := Conv(output, stack);
          var foundLeft := false;
          while stack != [] && !foundLeft
            invariant PopToParen(start, pos) ==
              if foundLeft then Ok(Conv(output, stack)) else PopToParen(Conv(output, stack), pos)
            decreases |stack|
          {
            var top := Top(stack);
            stack := Rest(stack);
            if top.LeftParen? {
              foundLeft := true;
            } else {
              output := output + [top];
            }
          }
          if !foundLeft {
            return Err(Mismatch(-1, pos));
          }
      }
      i := i + 1;
    }
    ghost var done := Conv(output, stack);
    while stack != []
      invariant Flush(done) == Flush(Conv(output, stack))
      decreases |stack|
    {
      var top := Top(stack);
      stack := Rest(stack);
      if top.LeftParen? {
        return Err(Mismatch(top.pos, -1));
      }
      output := output + [top];
    }
    r := Ok(output);
  }

  // Any token list: when it converts, and what the output holds ----------------

  // A reference reading of the parentheses alone; open holds the positions of
  // the ones not yet closed.
  function Parens(tokens: seq<Token>, open: seq<int>): Result<()>
    decreases |tokens|
  {
    if tokens == [] then (if open == [] then Ok(()) else Err(Mismatch(open[|open| - 1], -1)))
    else if tokens[0].LeftParen? then Parens(tokens[1..], open + [tokens[0].pos])
    else if tokens[0].RightParen? then
      if open == [] then Err(Mismatch(-1, tokens[0].pos)) else Parens(tokens[1..], open[..|open| - 1])
    else Parens(tokens[1..], open)
  }

  function OpenPositions(stack: seq<Token>): seq<int> {
    if stack == [] then []
    else OpenPositions(Rest(stack)) + if Top(stack).LeftParen? then [Top(stack).pos] else []
  }

  ghost predicate Pending(stack: seq<Token>) {
    forall i :: 0 <= i < |stack| ==> stack[i].Operator? || stack[i].LeftParen?
  }

  // Conversion fails exactly when the parentheses do not match, and reports the
  // parenthesis at fault: the first unmatched close, or else the last open.
  lemma {:induction false} ConvertsIffBalanced(c: Conv, tokens: seq<Token>)
    requires Pending(c.stack)
    ensures var p := Parens(tokens, OpenPositions(c.stack));
      var r := Complete(c, tokens);
      if p.Ok? then r.Ok? else r == Err(p.error)
    decreases |tokens|
  {
    if tokens == [] {
      FlushReports(c);
    } else {
      var t := tokens[0];
      match t {
        case Number(_, _) =>
          ConvertsIffBalanced(Step(c, t).value, tokens[1..]);
        case Operator(op, _) =>
          PopWhileKeeps(c, op);
          var d := Step(c, t).value;
          assert Rest(d.stack) == PopWhile(c, op).stack;
          assert OpenPositions(Rest(d.stack)) + [] == OpenPositions(Rest(d.stack));
          ConvertsIffBalanced(d, tokens[1..]);
        case LeftParen(_) =>
          var d := Step(c, t).value;
          assert Rest(d.stack) == c.stack;
          ConvertsIffBalanced(d, tokens[1..]);
        case RightParen(pos) =>
          PopToParenReports(c, pos);
          if OpenPositions(c.stack) != [] {
            ConvertsIffBalanced(Step(c, t).value, tokens[1..]);
          }
      }
    }
  }

  lemma {:induction false} FlushReports(c: Conv)
    ensures var o := OpenPositions(c.stack);
      if o == [] then Flush(c).Ok? else Flush(c) == Err(Mismatch(o[|o| - 1], -1))
    decreases |c.stack|
  {
    if c.stack != [] && !Top(c.stack).LeftParen? {
      FlushReports(Conv(c.output + [Top(c.stack)], Rest(c.stack)));
      assert OpenPositions(Rest(c.stack)) + [] == OpenPositions(Rest(c.stack));
    }
  }

  lemma {:induction false} PopWhileKeeps(c: Conv, op: char)
    requires Pending(c.stack)
    ensures var d := PopWhile(c, op);
      Pending(d.stack) && OpenPositions(d.stack) == OpenPositions(c.stack) && !PopsTop(d.stack, op)
    decreases |c.stack|
  {
    if PopsTop(c.stack, op) {
      PopWhileKeeps(Conv(c.output + [Top(c.stack)], Rest(c.stack)), op);
      assert OpenPositions(Rest(c.stack)) + [] == OpenPositions(Rest(c.stack));
    }
  }

  lemma {:induction false} PopToParenReports(c: Conv, pos: int)
    requires Pending(c.stack)
    ensures var o := OpenPositions(c.stack);
      var d := PopToParen(c, pos);
      if o == [] then d == Err(Mismatch(-1, pos))
      else d.Ok? && Pending(d.value.stack) && OpenPositions(d.value.stack) == o[..|o| - 1]
    decreases |c.stack|
  {
    if c.stack != [] {
      if Top(c.stack).LeftParen? {
        var o := OpenPositions(Rest(c.stack));
        assert (o + [Top(c.stack).pos])[..|o|] == o;
      } else {
        PopToParenReports(Conv(c.output + [Top(c.stack)], Rest(c.stack)), pos);
        assert OpenPositions(Rest(c.stack)) + [] == OpenPositions(Rest(c.stack));
      }
    }
  }

  // The tokens other than parentheses, and the numbers among them.
  function Symbols(tokens: seq<Token>): seq<Token> {
    if tokens == [] then []
    else (if tokens[0].Number? || tokens[0].Operator? then [tokens[0]] else []) + Symbols(tokens[1..])
  }

  function Numbers(tokens: seq<Token>): seq<Token> {
    if tokens == [] then [] else (if tokens[0].Number? then [tokens[0]] else []) + Numbers(tokens[1..])
  }

  lemma {:induction false} SymbolsConcat(a: seq<Token>, b: seq<Token>)
    ensures Symbols(a + b) == Symbols(a) + Symbols(b)
    ensures Numbers(a + b) == Numbers(a) + Numbers(b)
  {
    if a == [] {
      assert a + b == b;
    } else {
      assert (a + b)[1..] == a[1..] + b;
      SymbolsConcat(a[1..], b);
      var x := if a[0].Number? || a[0].Operator? then [a[0]] else [];
      var y := if a[0].Number? then [a[0]] else [];
      assert x + (Symbols(a[1..]) + Symbols(b)) == x + Symbols(a[1..]) + Symbols(b);
      assert y + (Numbers(a[1..]) + Numbers(b)) == y + Numbers(a[1..]) + Numbers(b);
    }
  }

  // What a state holds: the output and the pending operators.
  ghost function Held(c: Conv): multiset<Token> {
    multiset(c.output) + multiset(Symbols(c.stack))
  }

  // The output is a rearrangement of the non-parenthesis tokens.
  lemma {:induction false} ConversionConserves(c: Conv, tokens: seq<Token>)
    requires Pending(c.stack) && Complete(c, tokens).Ok?
    ensures multiset(Complete(c, tokens).value) == Held(c) + multiset(Symbols(tokens))
    decreases |tokens|
  {
    if tokens == [] {
      FlushConserves(c);
    } else {
      var t := tokens[0];
      FirstOf(tokens);
      StepConserves(c, t);
      ConversionConserves(Step(c, t).value, tokens[1..]);
    }
  }

  // The numbers come out in the order they came in.
  lemma {:induction false} NumbersKeepOrder(c: Conv, tokens: seq<Token>)
    requires Pending(c.stack) && Complete(c, tokens).Ok?
    ensures Numbers(Complete(c, tokens).value) == Numbers(c.output) + Numbers(tokens)
    decreases |tokens|
  {
    if tokens == [] {
      FlushConserves(c);
      assert Numbers(c.output) + [] == Numbers(c.output);
    } else {
      var t := tokens[0];
      Single(t);
      StepConserves(c, t);
      NumbersKeepOrder(Step(c, t).value, tokens[1..]);
      var x, y, z := Numbers(c.output), Numbers([t]), Numbers(tokens[1..]);
      assert x + y + z == x + (y + z);
    }
  }

  lemma Single(t: Token)
    ensures Symbols([t]) == if t.Number? || t.Operator? then [t] else []
    ensures Numbers([t]) == if t.Number? then [t] else []
  {
    assert [t][1..] == [];
  }

  lemma FirstOf(tokens: seq<Token>)
    requires tokens != []
    ensures multiset(Symbols(tokens)) == multiset(Symbols([tokens[0]])) + multiset(Symbols(tokens[1..]))
    ensures Numbers(tokens) == Numbers([tokens[0]]) + Numbers(tokens[1..])
  {
    assert tokens == [tokens[0]] + tokens[1..];
    SymbolsConcat([tokens[0]], tokens[1..]);
  }

  ghost predicate Conserved(c: Conv, d: Conv, t: Token) {
    Held(d) == Held(c) + multiset(Symbols([t])) && Numbers(d.output) == Numbers(c.output) + Numbers([t])
  }

  lemma StepConserves(c: Conv, t: Token)
    requires Pending(c.stack) && Step(c, t).Ok?
    ensures Pending(Step(c, t).value.stack) && Conserved(c, Step(c, t).value, t)
  {
    match t {
      case Number(_, _) => NumberConserves(c, t);
      case Operator(_, _) => OperatorConserves(c, t);
      case LeftParen(_) => OpenConserves(c, t);
      case RightParen(_) => CloseConserves(c, t);
    }
  }

  lemma NumberConserves(c: Conv, t: Token)
    requires t.Number?
    ensures Conserved(c, Step(c, t).value, t)
  {
    Single(t);
    SymbolsConcat(c.output, [t]);
  }

  lemma OpenConserves(c: Conv, t: Token)
    requires Pending(c.stack) && t.LeftParen?
    ensures Pending(Step(c, t).value.stack) && Conserved(c, Step(c, t).value, t)
  {
    Single(t);
    SymbolsConcat(c.stack, [t]);
    var held, out := Symbols(c.stack), Numbers(c.output);
    assert held + [] == held && out + [] == out;
    assert Symbols(c.stack + [t]) == held;
  }

  lemma CloseConserves(c: Conv, t: Token)
    requires Pending(c.stack) && t.RightParen? && Step(c, t).Ok?
    ensures Pending(Step(c, t).value.stack) && Conserved(c, Step(c, t).value, t)
  {
    Single(t);
    PopToParenConserves(c, t.pos);
    PopToParenReports(c, t.pos);
    assert Numbers(c.output) + [] == Numbers(c.output);
  }

  lemma OperatorConserves(c: Conv, t: Token)
    requires Pending(c.stack) && t.Operator?
    ensures Pending(Step(c, t).value.stack) && Conserved(c, Step(c, t).value, t)
  {
    var d := PopWhile(c, t.op);
    PopWhileConserves(c, t.op);
    PopWhileKeeps(c, t.op);
    Single(t);
    PushConserves(d, t);
    assert Numbers(c.output) + [] == Numbers(c.output);
  }

  lemma PushConserves(d: Conv, t: Token)
    requires Pending(d.stack) && t.Operator?
    ensures Pending(d.stack + [t]) && Held(Conv(d.output, d.stack + [t])) == Held(d) + multiset(Symbols([t]))
  {
    SymbolsConcat(d.stack, [t]);
  }

  lemma SplitTop(stack: seq<Token>)
    requires stack != []
    ensures Symbols(stack) == Symbols(Rest(stack)) + Symbols([Top(stack)])
    ensures Symbols([Top(stack)]) == if Top(stack).Number? || Top(stack).Operator? then [Top(stack)] else []
    ensures Numbers([Top(stack)]) == if Top(stack).Number? then [Top(stack)] else []
  {
    assert stack == Rest(stack) + [Top(stack)];
    SymbolsConcat(Rest(stack), [Top(stack)]);
    Single(Top(stack));
  }

  // Popping an operator moves it from the stack to the output.
  lemma PopConserves(c: Conv)
    requires Pending(c.stack) && c.stack != [] && Top(c.stack).Operator?
    ensures var d := Conv(c.output + [Top(c.stack)], Rest(c.stack));
      Pending(d.stack) && Held(d) == Held(c) && Numbers(d.output) == Numbers(c.output)
  {
    SymbolsConcat(c.output, [Top(c.stack)]);
    SplitTop(c.stack);
  }

  lemma {:induction false} PopWhileConserves(c: Conv, op: char)
    requires Pending(c.stack)
    ensures Held(PopWhile(c, op)) == Held(c) && Numbers(PopWhile(c, op).output) == Numbers(c.output)
    decreases |c.stack|
  {
    if PopsTop(c.stack, op) {
      PopConserves(c);
      PopWhileConserves(Conv(c.output + [Top(c.stack)], Rest(c.stack)), op);
    }
  }

  lemma {:induction false} PopToParenConserves(c: Conv, pos: int)
    requires Pending(c.stack) && PopToParen(c, pos).Ok?
    ensures var d := PopToParen(c, pos).value;
      Held(d) == Held(c) && Numbers(d.output) == Numbers(c.output)
    decreases |c.stack|
  {
    SplitTop(c.stack);
    if !Top(c.stack).LeftParen? {
      PopConserves(c);
      PopToParenConserves(Conv(c.output + [Top(c.stack)], Rest(c.stack)), pos);
    }
  }

  lemma {:induction false} FlushConserves(c: Conv)
    requires Pending(c.stack) && Flush(c).Ok?
    ensures multiset(Flush(c).value) == Held(c) && Numbers(Flush(c).value) == Numbers(c.output)
    decreases |c.stack|
  {
    if c.stack != [] {
      PopConserves(c);
      FlushConserves(Conv(c.output + [Top(c.stack)], Rest(c.stack)));
    }
  }

  // Expression trees -----------------------------------------------------------

  datatype Expr =
    | Num(value: real, pos: int)
    | Bin(op: char, pos: int, left: Expr, right: Expr)
    | Paren(inner: Expr, open: int, close: int)

  // Infix and postfix forms of a tree.
  function Print(e: Expr): seq<Token> {
    match e
    case Num(v, pos) => [Number(v, pos)]
    case Bin(op, pos, l, r) => Print(l) + ([Operator(op, pos)] + Print(r))
    case Paren(e, open, close) => [LeftParen(open)] + (Print(e) + [RightParen(close)])
  }

  function Postorder(e: Expr): seq<Token> {
    match e
    case Num(v, pos) => [Number(v, pos)]
    case Bin(op, pos, l, r) => Postorder(l) + Postorder(r) + [Operator(op, pos)]
    case Paren(e, _, _) => Postorder(e)
  }

  // Parentheses stand wherever precedence and associativity ask for them; extra
  // ones are allowed.
  predicate Faithful(e: Expr) {
    match e
    case Num(_, _) => true
    case Bin(op, _, l, r) =>
      Faithful(l) && Faithful(r) &&
      (l.Bin? ==> Pops(l.op, op)) && (r.Bin? ==> !Pops(op, r.op))
    case Paren(e, _, _) => Faithful(e)
  }

  // The token that follows e makes all of e's pending operators leave the stack.
  predicate Closes(e: Expr, rest: seq<Token>) {
    rest == [] || rest[0].RightParen? ||
    (rest[0].Operator? && (e.Bin? ==> Pops(e.op, rest[0].op)))
  }

  // Reading a faithful print of e amounts to writing its postorder.
  lemma {:induction false} ReadsTree(e: Expr, c: Conv, rest: seq<Token>)
    requires Faithful(e) && Closes(e, rest)
    requires e.Bin? ==> !PopsTop(c.stack, e.op)
    ensures Complete(c, Print(e) + rest) == Complete(Conv(c.output + Postorder(e), c.stack), rest)
    decreases e
  {
    match e {
      case Num(v, pos) =>
        assert (Print(e) + rest)[1..] == rest;
      case Bin(op, pos, l, r) =>
        ReadsBin(e, c, rest);
      case Paren(inner, open, close) =>
        var lp, rp := LeftParen(open), RightParen(close);
        var d := Conv(c.output, c.stack + [lp]);
        assert Print(e) + rest == [lp] + (Print(inner) + ([rp] + rest));
        assert ([lp] + (Print(inner) + ([rp] + rest)))[1..] == Print(inner) + ([rp] + rest);
        ReadsTree(inner, d, [rp] + rest);
        assert Rest(d.stack) == c.stack;
        assert ([rp] + rest)[1..] == rest;
    }
  }

  // An operator that pops nothing goes on the stack.
  lemma ReadsOperator(c: Conv, t: Token, rest: seq<Token>)
    requires t.Operator? && !PopsTop(c.stack, t.op)
    ensures Complete(c, [t] + rest) == Complete(Conv(c.output, c.stack + [t]), rest)
  {
    assert ([t] + rest)[1..] == rest;
  }

  lemma {:induction false} ReadsBin(e: Expr, c: Conv, rest: seq<Token>)
    requires e.Bin? && Faithful(e) && Closes(e, rest) && !PopsTop(c.stack, e.op)
    ensures Complete(c, Print(e) + rest) == Complete(Conv(c.output + Postorder(e), c.stack), rest)
    decreases e, 0
  {
    var l, r, t := e.left, e.right, Operator(e.op, e.pos);
    var tail := [t] + (Print(r) + rest);
    assert Print(e) + rest == Print(l) + tail;
    ReadsTree(l, c, tail);
    var c1 := Conv(c.output + Postorder(l), c.stack);
    ReadsOperator(c1, t, Print(r) + rest);
    var c2 := Conv(c1.output, c.stack + [t]);
    assert Top(c2.stack) == t;
    ReadsTree(r, c2, rest);
    var c3 := Conv(c2.output + Postorder(r), c2.stack);
    assert Rest(c3.stack) == c.stack && Top(c3.stack) == t;
    assert c3.output + [t] == c.output + Postorder(e);
    TopLeaves(c3, rest);
  }

  // A closing token, or the end, moves the operator on top to the output first.
  lemma TopLeaves(c: Conv, rest: seq<Token>)
    requires c.stack != [] && Top(c.stack).Operator?
    requires rest == [] || rest[0].RightParen? || (rest[0].Operator? && Pops(Top(c.stack).op, rest[0].op))
    ensures Complete(c, rest) == Complete(Conv(c.output + [Top(c.stack)], Rest(c.stack)), rest)
  {
  }

  // The machine ----------------------------------------------------------------

  function Multiply(l: real, r: real): real {
    l * r
  }

  function Apply(op: char, pos: int, l: real, r: real, pow: (real, real) -> real): Result<real> {
    if op == '+' then Ok(l + r)
    else if op == '-' then Ok(l - r)
    else if op == '*' then Ok(Multiply(l, r))
    else if op == '/' then (if r == 0.0 then Err(DivisionByZero(pos)) else Ok(l / r))
    else if op == '^' then Ok(pow(l, r))
    else Err(UnknownOperator(op))
  }

  function Execute(operands: seq<real>, tokens: seq<Token>, pow: (real, real) -> real): Result<real>
    decreases |tokens|
  {
    if tokens == [] then
      if |operands| != 1 then Err(MissingOperator(|operands|)) else Ok(operands[0])
    else
      match tokens[0]
      case Number(v, _) => Execute(operands + [v], tokens[1..], pow)
      case Operator(op, pos) =>
        var n := |operands|;
        if n < 2 then Err(MissingOperand(op, pos))
        else
          var x := Apply(op, pos, operands[n - 2], operands[n - 1], pow);
          if x.Err? then Err(x.error) else Execute(operands[..n - 2] + [x.value], tokens[1..], pow)
      case _ => Execute(operands, tokens[1..], pow)
  }

  method EvaluatePostFix(tokens: seq<Token>, pow: (real, real) -> real) returns (r: Result<real>)
    ensures r == Execute([], tokens, pow)
  {
    var operands: seq<real> := [];
    var i := 0;
    while i < |tokens|
      invariant 0 <= i <= |tokens|
      invariant Execute([], tokens, pow) == Execute(operands, tokens[i..], pow)
    {
      var token := tokens[i];
      assert tokens[i..][0] == token && tokens[i..][1..] == tokens[i + 1..];
      match token {
        case Number(v, _) =>
          operands := operands + [v];
        case Operator(op, pos) =>
          if |operands| < 2 {
            return Err(MissingOperand(op, pos));
          }
          var right := operands[|operands| - 1];
          var left := operands[|operands| - 2];
          ghost var before := operands;
          operands := operands[..|operands| - 2];
          var opResult;
          if op == '+' {
            opResult := left + right;
          } else if op == '-' {
            opResult := left - right;
          } else if op == '*' {
            opResult := Multiply(left, right);
          } else if op == '/' {
            if right == 0.0 {
              return Err(DivisionByZero(pos));
            }
            opResult := left / right;
          } else if op == '^' {
            opResult := pow(left, right);
          } else {
            return Err(UnknownOperator(op));
          }
          operands := operands + [opResult];
          assert Apply(op, pos, left, right, pow) == Ok(opResult);
          assert Execute(before, tokens[i..], pow) == Execute(operands, tokens[i + 1..], pow);
        case _ =>
      }
      i := i + 1;
    }
    if |operands| != 1 {
      return Err(MissingOperator(|operands|));
    }
    r := Ok(operands[0]);
  }

  // Numbers more than operators, of which each takes two and leaves one.
  function Excess(tokens: seq<Token>): int {
    if tokens == [] then 0
    else (if tokens[0].Number? then 1 else if tokens[0].Operator? then -1 else 0) + Excess(tokens[1..])
  }

  // A run succeeds only if one operand is left, and tells how many are left otherwise. It
  // misses an operand where the tokens so far have too few numbers for their operators.
  lemma {:induction false} LeftOver(operands: seq<real>, tokens: seq<Token>, pow: (real, real) -> real)
    ensures var r := Execute(operands, tokens, pow);
      var left := |operands| + Excess(tokens);
      && (r.Ok? ==> left == 1)
      && (r.Err? && r.error.MissingOperator? ==> left == r.error.leftover != 1)
      && (r.Err? && r.error.MissingOperand? ==>
            exists i :: 0 <= i < |tokens| && tokens[i] == Operator(r.error.op, r.error.pos)
                        && |operands| + Excess(tokens[..i]) < 2)
    decreases |tokens|
  {
    if tokens != [] {
      var t, n := tokens[0], |operands|;
      if t.Operator? && n < 2 {
        assert tokens[..0] == [];
      } else {
        var next := if t.Number? then operands + [t.value]
                    else if t.Operator? then
                      operands[..n - 2] + [Applied(t.op, t.pos, operands[n - 2], operands[n - 1], pow)]
                    else operands;
        LeftOver(next, tokens[1..], pow);
        var r := Execute(next, tokens[1..], pow);
        if r.Err? && r.error.MissingOperand? {
          var i :| 0 <= i < |tokens[1..]| && tokens[1..][i] == Operator(r.error.op, r.error.pos)
                   && |next| + Excess(tokens[1..][..i]) < 2;
          assert tokens[..i + 1][1..] == tokens[1..][..i];
          assert tokens[i + 1] == Operator(r.error.op, r.error.pos);
        }
      }
    }
  }

  function Applied(op: char, pos: int, l: real, r: real, pow: (real, real) -> real): real {
    var x := Apply(op, pos, l, r, pow);
    if x.Ok? then x.value else 0.0
  }

  // The meaning of a tree, left operand first.
  function Value(e: Expr, pow: (real, real) -> real): Result<real> {
    match e
    case Num(v, _) => Ok(v)
    case Bin(op, pos, l, r) =>
      var x := Value(l, pow);
      if x.Err? then x
      else
        var y := Value(r, pow);
        if y.Err? then y else Apply(op, pos, x.value, y.value, pow)
    case Paren(e, _, _) => Value(e, pow)
  }

  lemma {:induction false} ExecutesTree(e: Expr, operands: seq<real>, rest: seq<Token>, pow: (real, real) -> real)
    ensures Execute(operands, Postorder(e) + rest, pow) ==
      if Value(e, pow).Err? then Err(Value(e, pow).error)
      else Execute(operands + [Value(e, pow).value], rest, pow)
    decreases e
  {
    match e {
      case Num(v, pos) =>
        assert (Postorder(e) + rest)[1..] == rest;
      case Bin(op, pos, l, r) =>
        var t := Operator(op, pos);
        var tail := Postorder(r) + ([t] + rest);
        assert Postorder(e) + rest == Postorder(l) + tail;
        ExecutesTree(l, operands, tail, pow);
        if Value(l, pow).Ok? {
          var a := operands + [Value(l, pow).value];
          ExecutesTree(r, a, [t] + rest, pow);
          if Value(r, pow).Ok? {
            var b := a + [Value(r, pow).value];
            assert b[..|b| - 2] == operands && ([t] + rest)[1..] == rest;
          }
        }
      case Paren(inner, _, _) =>
        ExecutesTree(inner, operands, rest, pow);
    }
  }

  // What conversion and the machine make of a token list.
  function Evaluated(tokens: seq<Token>, pow: (real, real) -> real): Result<real> {
    var postfix := Complete(Conv([], []), tokens);
    if postfix.Err? then Err(postfix.error) else Execute([], postfix.value, pow)
  }

  // The translation preserves meaning: a faithfully printed tree converts to its
  // postorder and evaluates to its value, failing only on a division by zero that
  // the tree itself meets.
  lemma EvaluationIsFaithful(e: Expr, pow: (real, real) -> real)
    requires Faithful(e)
    ensures Complete(Conv([], []), Print(e)) == Ok(Postorder(e))
    ensures Evaluated(Print(e), pow) == Value(e, pow)
    ensures KnownOperators(e) && Value(e, pow).Err? ==> Value(e, pow).error.DivisionByZero?
  {
    ReadsTree(e, Conv([], []), []);
    assert Print(e) + [] == Print(e) && [] + Postorder(e) == Postorder(e);
    ExecutesTree(e, [], [], pow);
    assert Postorder(e) + [] == Postorder(e);
    if KnownOperators(e) && Value(e, pow).Err? {
      OnlyDivision(e, pow);
    }
  }

  lemma {:induction false} OnlyDivision(e: Expr, pow: (real, real) -> real)
    requires KnownOperators(e) && Value(e, pow).Err?
    ensures Value(e, pow).error.DivisionByZero?
  {
    match e
    case Bin(_, _, l, r) =>
      if Value(l, pow).Err? {
        OnlyDivision(l, pow);
      } else if Value(r, pow).Err? {
        OnlyDivision(r, pow);
      }
    case Paren(inner, _, _) => OnlyDivision(inner, pow);
  }

  // Every tree has a faithful print ----------------------------------------------

  function Wrap(e: Expr, needed: bool): Expr {
    if needed then Paren(e, 0, 0) else e
  }

  // Puts parentheses exactly where the operator table asks for them.
  function Parenthesize(e: Expr): (p: Expr)
    ensures p.Bin? ==> e.Bin? && p.op == e.op
  {
    match e
    case Num(_, _) => e
    case Bin(op, pos, l, r) =>
      Bin(op, pos, Wrap(Parenthesize(l), l.Bin? && !Pops(l.op, op)),
          Wrap(Parenthesize(r), r.Bin? && Pops(op, r.op)))
    case Paren(inner, open, close) => Paren(Parenthesize(inner), open, close)
  }

  predicate KnownOperators(e: Expr) {
    match e
    case Num(_, _) => true
    case Bin(op, _, l, r) => IsOperator(op) && KnownOperators(l) && KnownOperators(r)
    case Paren(inner, _, _) => KnownOperators(inner)
  }

  lemma {:induction false} ParenthesizeIsFaithful(e: Expr, pow: (real, real) -> real)
    ensures Faithful(Parenthesize(e))
    ensures Postorder(Parenthesize(e)) == Postorder(e) && Value(Parenthesize(e), pow) == Value(e, pow)
  {
    match e
    case Num(_, _) =>
    case Bin(_, _, l, r) =>
      ParenthesizeIsFaithful(l, pow);
      ParenthesizeIsFaithful(r, pow);
    case Paren(inner, _, _) => ParenthesizeIsFaithful(inner, pow);
  }

  // Of two operators in a row, the first is applied first exactly when it pops.
  lemma PairOrder(a: Token, f: Token, b: Token, g: Token, c: Token)
    requires a.Number? && b.Number? && c.Number? && f.Operator? && g.Operator?
    ensures Complete(Conv([], []), [a, f, b, g, c]) ==
      Ok(if Pops(f.op, g.op) then [a, b, f, c, g] else [a, b, c, g, f])
  {
    var x, y, z := Num(a.value, a.pos), Num(b.value, b.pos), Num(c.value, c.pos);
    var e := if Pops(f.op, g.op) then Bin(g.op, g.pos, Bin(f.op, f.pos, x, y), z)
             else Bin(f.op, f.pos, x, Bin(g.op, g.pos, y, z));
    EvaluationIsFaithful(e, (p, q) => p);
    if Pops(f.op, g.op) {
      assert Print(e.left) == [a, f, b] && Postorder(e.left) == [a, b, f];
      assert Print(e) == [a, f, b] + ([g] + [c]) && Postorder(e) == [a, b, f] + [c] + [g];
    } else {
      assert Print(e.right) == [b, g, c] && Postorder(e.right) == [b, c, g];
      assert Print(e) == [a] + ([f] + [b, g, c]) && Postorder(e) == [a] + [b, c, g] + [f];
    }
    assert Print(e) == [a, f, b, g, c];
    assert Postorder(e) == if Pops(f.op, g.op) then [a, b, f, c, g] else [a, b, c, g, f];
  }

  // The arithmetic the evaluator is for -------------------------------------------

  // Sums of products of powers, as the grammar of arithmetic has them: sums and products
  // grow to the right, powers nest there.
  datatype Sum =
    | Term(first: Product)
    | Plus(sum: Sum, pos: int, more: Product)
    | Minus(sum: Sum, pos: int, less: Product)

  datatype Product =
    | Factor(first: Power)
    | Times(product: Product, pos: int, factor: Power)
    | Over(product: Product, pos: int, divisor: Power)

  datatype Power =
    | Base(atom: Atom)
    | Raised(atom: Atom, pos: int, exponent: Power)

  datatype Atom =
    | Literal(value: real, pos: int)
    | Group(sum: Sum, open: int, close: int)

  function SumTokens(s: Sum): seq<Token> {
    match s
    case Term(p) => ProductTokens(p)
    case Plus(l, pos, p) => SumTokens(l) + ([Operator('+', pos)] + ProductTokens(p))
    case Minus(l, pos, p) => SumTokens(l) + ([Operator('-', pos)] + ProductTokens(p))
  }

  function ProductTokens(p: Product): seq<Token> {
    match p
    case Factor(q) => PowerTokens(q)
    case Times(l, pos, q) => ProductTokens(l) + ([Operator('*', pos)] + PowerTokens(q))
    case Over(l, pos, q) => ProductTokens(l) + ([Operator('/', pos)] + PowerTokens(q))
  }

  function PowerTokens(q: Power): seq<Token> {
    match q
    case Base(a) => AtomTokens(a)
    case Raised(a, pos, e) => AtomTokens(a) + ([Operator('^', pos)] + PowerTokens(e))
  }

  function AtomTokens(a: Atom): seq<Token> {
    match a
    case Literal(v, pos) => [Number(v, pos)]
    case Group(s, open, close) => [LeftParen(open)] + (SumTokens(s) + [RightParen(close)])
  }

  // Its value in the arithmetic of the reals, or the first division by zero.
  datatype Meaning = Is(value: real) | Undefined(pos: int)

  function SumMeans(s: Sum, pow: (real, real) -> real): Meaning {
    match s
    case Term(p) => ProductMeans(p, pow)
    case Plus(l, _, p) =>
      var x, y := SumMeans(l, pow), ProductMeans(p, pow);
      if x.Undefined? then x else if y.Undefined? then y else Is(x.value + y.value)
    case Minus(l, _, p) =>
      var x, y := SumMeans(l, pow), ProductMeans(p, pow);
      if x.Undefined? then x else if y.Undefined? then y else Is(x.value - y.value)
  }

  function ProductMeans(p: Product, pow: (real, real) -> real): Meaning {
    match p
    case Factor(q) => PowerMeans(q, pow)
    case Times(l, _, q) =>
      var x, y := ProductMeans(l, pow), PowerMeans(q, pow);
      if x.Undefined? then x else if y.Undefined? then y else Is(x.value * y.value)
    case Over(l, pos, q) =>
      var x, y := ProductMeans(l, pow), PowerMeans(q, pow);
      if x.Undefined? then x else if y.Undefined? then y
      else if y.value == 0.0 then Undefined(pos) else Is(x.value / y.value)
  }

  function PowerMeans(q: Power, pow: (real, real) -> real): Meaning {
    match q
    case Base(a) => AtomMeans(a, pow)
    case Raised(a, _, e) =>
      var x, y := AtomMeans(a, pow), PowerMeans(e, pow);
      if x.Undefined? then x else if y.Undefined? then y else Is(pow(x.value, y.value))
  }

  function AtomMeans(a: Atom, pow: (real, real) -> real): Meaning {
    match a
    case Literal(v, _) => Is(v)
    case Group(s, _, _) => SumMeans(s, pow)
  }

  // The same as a tree of operators.
  function SumTree(s: Sum): Expr {
    match s
    case Term(p) => ProductTree(p)
    case Plus(l, pos, p) => Bin('+', pos, SumTree(l), ProductTree(p))
    case Minus(l, pos, p) => Bin('-', pos, SumTree(l), ProductTree(p))
  }

  function ProductTree(p: Product): Expr {
    match p
    case Factor(q) => PowerTree(q)
    case Times(l, pos, q) => Bin('*', pos, ProductTree(l), PowerTree(q))
    case Over(l, pos, q) => Bin('/', pos, ProductTree(l), PowerTree(q))
  }

  function PowerTree(q: Power): Expr {
    match q
    case Base(a) => AtomTree(a)
    case Raised(a, pos, e) => Bin('^', pos, AtomTree(a), PowerTree(e))
  }

  function AtomTree(a: Atom): Expr {
    match a
    case Literal(v, pos) => Num(v, pos)
    case Group(s, open, close) => Paren(SumTree(s), open, close)
  }

  ghost predicate Stands(e: Expr, tokens: seq<Token>, m: Meaning, pow: (real, real) -> real) {
    Faithful(e) && Print(e) == tokens && Value(e, pow) == Answer(m)
  }

  function Answer(m: Meaning): Result<real> {
    if m.Is? then Ok(m.value) else Err(DivisionByZero(m.pos))
  }

  // The parentheses of the grammar stand where the operator table asks for them, and the
  // machine's arithmetic is that of the reals.
  lemma {:induction false} SumStands(s: Sum, pow: (real, real) -> real)
    ensures Stands(SumTree(s), SumTokens(s), SumMeans(s, pow), pow)
    ensures SumTree(s).Bin? ==> IsOperator(SumTree(s).op)
  {
    match s
    case Term(p) => ProductStands(p, pow);
    case Plus(l, _, p) =>
      SumStands(l, pow);
      ProductStands(p, pow);
    case Minus(l, _, p) =>
      SumStands(l, pow);
      ProductStands(p, pow);
  }

  lemma {:induction false} ProductStands(p: Product, pow: (real, real) -> real)
    ensures Stands(ProductTree(p), ProductTokens(p), ProductMeans(p, pow), pow)
    ensures ProductTree(p).Bin? ==> ProductTree(p).op in {'*', '/', '^'}
  {
    match p
    case Factor(q) => PowerStands(q, pow);
    case Times(l, pos, q) =>
      ProductStands(l, pow);
      PowerStands(q, pow);
      var x, y := ProductMeans(l, pow), PowerMeans(q, pow);
      if x.Is? && y.Is? {
        var z := x.value * y.value;
        assert Multiply(x.value, y.value) == z;
        assert ProductMeans(p, pow) == Is(z);
      }
    case Over(l, _, q) =>
      ProductStands(l, pow);
      PowerStands(q, pow);
  }

  lemma {:induction false} PowerStands(q: Power, pow: (real, real) -> real)
    ensures Stands(PowerTree(q), PowerTokens(q), PowerMeans(q, pow), pow)
    ensures PowerTree(q).Bin? ==> PowerTree(q).op == '^'
  {
    match q
    case Base(a) => AtomStands(a, pow);
    case Raised(a, _, e) =>
      AtomStands(a, pow);
      PowerStands(e, pow);
  }

  lemma {:induction false} AtomStands(a: Atom, pow: (real, real) -> real)
    ensures Stands(AtomTree(a), AtomTokens(a), AtomMeans(a, pow), pow) && !AtomTree(a).Bin?
  {
    match a
    case Literal(_, _) =>
    case Group(s, _, _) => SumStands(s, pow);
  }

  // Whatever the grammar derives evaluates to its value in real arithmetic, the only
  // failure being the first division by zero.
  lemma EvaluatesArithmetic(s: Sum, pow: (real, real) -> real)
    ensures Evaluated(SumTokens(s), pow) == Answer(SumMeans(s, pow))
  {
    SumStands(s, pow);
    EvaluationIsFaithful(SumTree(s), pow);
  }

  // Operands with operators between them ----------------------------------------------

  // A first operand, and operators with the operands that follow them.
  datatype Infix = Infix(first: Operand, rest: seq<Link>)

  datatype Link = Link(op: char, pos: int, operand: Operand)

  datatype Operand =
    | Plain(value: real, pos: int)
    | Bracketed(inner: Infix, open: int, close: int)

  function InfixTokens(x: Infix): seq<Token>
    decreases x, |x.rest| + 1
  {
    OperandTokens(x.first) + LinkTokens(x, |x.rest|)
  }

  // The tokens of the first n links.
  function LinkTokens(x: Infix, n: nat): seq<Token>
    requires n <= |x.rest|
    decreases x, n
  {
    if n == 0 then []
    else
      var k := x.rest[n - 1];
      LinkTokens(x, n - 1) + ([Operator(k.op, k.pos)] + OperandTokens(k.operand))
  }

  function OperandTokens(o: Operand): seq<Token>
    decreases o, 0
  {
    match o
    case Plain(v, pos) => [Number(v, pos)]
    case Bracketed(x, open, close) => [LeftParen(open)] + (InfixTokens(x) + [RightParen(close)])
  }

  predicate OnlyKnown(x: Infix)
    decreases x, |x.rest|
  {
    && KnownOperand(x.first)
    && forall i :: 0 <= i < |x.rest| ==> IsOperator(x.rest[i].op) && KnownOperand(x.rest[i].operand)
  }

  predicate KnownOperand(o: Operand)
    decreases o, 0
  {
    match o
    case Plain(_, _) => true
    case Bracketed(x, _, _) => OnlyKnown(x)
  }

  // A power, product or sum with one operator and operand more at its end.
  function PowerMore(q: Power, pos: int, a: Atom): (r: Power)
    ensures PowerTokens(r) == PowerTokens(q) + ([Operator('^', pos)] + AtomTokens(a))
  {
    match q
    case Base(b) => Raised(b, pos, Base(a))
    case Raised(b, p, e) =>
      var r := Raised(b, p, PowerMore(e, pos, a));
      assert PowerTokens(r) ==
             AtomTokens(b) + ([Operator('^', p)] + (PowerTokens(e) + ([Operator('^', pos)] + AtomTokens(a))));
      r
  }

  function ProductMore(p: Product, op: char, pos: int, a: Atom): (r: Product)
    requires op in {'*', '/', '^'}
    ensures ProductTokens(r) == ProductTokens(p) + ([Operator(op, pos)] + AtomTokens(a))
  {
    if op == '*' then Times(p, pos, Base(a))
    else if op == '/' then Over(p, pos, Base(a))
    else
      match p
      case Factor(q) => Factor(PowerMore(q, pos, a))
      case Times(l, at, q) => Times(l, at, PowerMore(q, pos, a))
      case Over(l, at, q) => Over(l, at, PowerMore(q, pos, a))
  }

  function SumMore(s: Sum, op: char, pos: int, a: Atom): (r: Sum)
    requires IsOperator(op)
    ensures SumTokens(r) == SumTokens(s) + ([Operator(op, pos)] + AtomTokens(a))
  {
    assert ProductTokens(Factor(Base(a))) == AtomTokens(a);
    if op == '+' then Plus(s, pos, Factor(Base(a)))
    else if op == '-' then Minus(s, pos, Factor(Base(a)))
    else
      match s
      case Term(p) => Term(ProductMore(p, op, pos, a))
      case Plus(l, at, p) => Plus(l, at, ProductMore(p, op, pos, a))
      case Minus(l, at, p) => Minus(l, at, ProductMore(p, op, pos, a))
  }

  // The grammar derives all of them.
  lemma {:induction false} InfixDerived(x: Infix) returns (s: Sum)
    requires OnlyKnown(x)
    ensures SumTokens(s) == InfixTokens(x)
    decreases x, |x.rest| + 1
  {
    s := LinksDerived(x, |x.rest|);
  }

  lemma {:induction false} LinksDerived(x: Infix, n: nat) returns (s: Sum)
    requires OnlyKnown(x) && n <= |x.rest|
    ensures SumTokens(s) == OperandTokens(x.first) + LinkTokens(x, n)
    decreases x, n
  {
    if n == 0 {
      var a := OperandDerived(x.first);
      s := Term(Factor(Base(a)));
      assert ProductTokens(Factor(Base(a))) == AtomTokens(a);
      assert OperandTokens(x.first) + [] == OperandTokens(x.first);
    } else {
      var k := x.rest[n - 1];
      var l := LinksDerived(x, n - 1);
      var a := OperandDerived(k.operand);
      s := SumMore(l, k.op, k.pos, a);
      var m := [Operator(k.op, k.pos)] + OperandTokens(k.operand);
      assert OperandTokens(x.first) + LinkTokens(x, n - 1) + m == OperandTokens(x.first) + (LinkTokens(x, n - 1) + m);
    }
  }

  lemma {:induction false} OperandDerived(o: Operand) returns (a: Atom)
    requires KnownOperand(o)
    ensures AtomTokens(a) == OperandTokens(o)
    decreases o, 0
  {
    match o
    case Plain(v, pos) => a := Literal(v, pos);
    case Bracketed(x, open, close) =>
      var s := InfixDerived(x);
      a := Group(s, open, close);
  }

  // However a token list is derived, it means the same.
  lemma OneMeaning(s: Sum, t: Sum, pow: (real, real) -> real)
    requires SumTokens(s) == SumTokens(t)
    ensures SumMeans(s, pow) == SumMeans(t, pow)
  {
    EvaluatesArithmetic(s, pow);
    EvaluatesArithmetic(t, pow);
  }

  function Plainly(t: Token): Power
    requires t.Number?
  {
    Base(Literal(t.value, t.pos))
  }

  lemma PlainlyReads(t: Token, pow: (real, real) -> real)
    requires t.Number?
    ensures PowerTokens(Plainly(t)) == ProductTokens(Factor(Plainly(t))) == SumTokens(Term(Factor(Plainly(t)))) == [t]
    ensures var m := Is(t.value);
      && PowerMeans(Plainly(t), pow) == m
      && ProductMeans(Factor(Plainly(t)), pow) == SumMeans(Term(Factor(Plainly(t))), pow) == m
  {
    assert AtomMeans(Literal(t.value, t.pos), pow) == Is(t.value);
  }

  // The conventions on three numbers: products before sums, differences from the left,
  // powers from the right.
  lemma Conventions(a: Token, f: Token, b: Token, g: Token, c: Token, pow: (real, real) -> real)
    requires a.Number? && b.Number? && c.Number? && f.Operator? && g.Operator?
    ensures var r := Evaluated([a, f, b, g, c], pow);
      && (f.op == '+' && g.op == '*' ==> r == Ok(a.value + b.value * c.value))
      && (f.op == '-' && g.op == '-' ==> r == Ok((a.value - b.value) - c.value))
      && (f.op == '^' && g.op == '^' ==> r == Ok(pow(a.value, pow(b.value, c.value))))
  {
    PlainlyReads(a, pow);
    PlainlyReads(b, pow);
    PlainlyReads(c, pow);
    var x, y, z := Plainly(a), Plainly(b), Plainly(c);
    if f.op == '+' && g.op == '*' {
      var p := Times(Factor(y), g.pos, z);
      var s := Plus(Term(Factor(x)), f.pos, p);
      assert ProductTokens(p) == [b] + ([g] + [c]) && SumTokens(s) == [a] + ([f] + ProductTokens(p));
      assert SumTokens(s) == [a, f, b, g, c];
      var product := b.value * c.value;
      assert ProductMeans(p, pow) == Is(product) && SumMeans(s, pow) == Is(a.value + product);
      EvaluatesArithmetic(s, pow);
    } else if f.op == '-' && g.op == '-' {
      var l := Minus(Term(Factor(x)), f.pos, Factor(y));
      var s := Minus(l, g.pos, Factor(z));
      assert SumTokens(l) == [a] + ([f] + [b]) && SumTokens(s) == SumTokens(l) + ([g] + [c]);
      assert SumTokens(s) == [a, f, b, g, c];
      assert SumMeans(l, pow) == Is(a.value - b.value);
      EvaluatesArithmetic(s, pow);
    } else if f.op == '^' && g.op == '^' {
      var e := Raised(y.atom, g.pos, z);
      var q := Raised(x.atom, f.pos, e);
      assert PowerTokens(e) == [b] + ([g] + [c]) && PowerTokens(q) == [a] + ([f] + PowerTokens(e));
      assert ProductTokens(Factor(q)) == PowerTokens(q) == [a, f, b, g, c];
      assert PowerMeans(e, pow) == Is(pow(b.value, c.value));
      assert AtomMeans(x.atom, pow) == Is(a.value);
      assert ProductMeans(Factor(q), pow) == PowerMeans(q, pow) == Is(pow(a.value, pow(b.value, c.value)));
      EvaluatesArithmetic(Term(Factor(q)), pow);
    }
  }

  // Evaluate after tokenizing: convert, then run the machine. Any arithmetic comes out as
  // its value.
  method Evaluate(tokens: seq<Token>, pow: (real, real) -> real) returns (r: Result<real>)
    ensures r == Evaluated(tokens, pow)
    ensures forall s :: tokens == SumTokens(s) ==> r == Answer(SumMeans(s, pow))
  {
    forall s | tokens == SumTokens(s) ensures Evaluated(tokens, pow) == Answer(SumMeans(s, pow)) {
      EvaluatesArithmetic(s, pow);
    }
    var postfix := InfixToPostfix(tokens);
    if postfix.Err? {
      return Err(postfix.error);
    }
    r := EvaluatePostFix(postfix.value, pow);
  }
}
