/**
 The rules of evaluation, one for each way an expression of crates/xript-expr/src/eval.rs comes to a
 value: what is derived by the rules is what is evaluated, and the laws that follow between constructs.
 */
module EvaluationRules {
  import opened Prelude
  import opened Expressions
  import opened Evaluation

  datatype Judgement = Judgement(ast: Ast, value: X)

  /** A judgement, and the derivations of the judgements it rests on, in the order they are evaluated. */
  datatype Derivation = Derivation(conclusion: Judgement, premises: seq<Derivation>)

  /** The left operand alone settles the value. */
  ghost predicate Settles(op: LogicalOp, lhs: X) {
    (op == And && lhs in FALSY) || (op == Or && lhs !in FALSY) || (op == Nullish && lhs != XNull)
  }

  const FALSY: set<X> := {XNull, XBool(false), XNum(0.0), XStr("")}

  /** The judgement follows from the premises `ps` by one rule; what is not among them is not evaluated. */
  ghost predicate ByRule(lib: Library, b: Bindings, j: Judgement, ps: seq<Judgement>) {
    match j.ast
    case Num(number) => ps == [] && j.value == lib.num(number)
    case Str(text) => ps == [] && j.value == XStr(text)
    case Bool(yes) => ps == [] && j.value == XBool(yes)
    case Null => ps == [] && j.value == XNull
    case Name(name) => ps == [] && (if name in b then j.value == b[name] else j.value == XNull)
    case Member(obj, member) => Asts(ps) == [obj] && j.value == lib.readName(ps[0].value, member)
    case Index(obj, index) => Asts(ps) == [obj, index] && IndexRule(lib, ps[0].value, ps[1].value, j.value)
    case Unary(op, arg) => Asts(ps) == [arg] && UnaryRule(lib, op, ps[0].value, j.value)
    case Logical(op, left, right) =>
      || (Asts(ps) == [left] && Settles(op, ps[0].value) && j.value == ps[0].value)
      || (Asts(ps) == [left, right] && !Settles(op, ps[0].value) && j.value == ps[1].value)
    case Cond(test, cons, alt) =>
      || (Asts(ps) == [test, cons] && ps[0].value !in FALSY && j.value == ps[1].value)
      || (Asts(ps) == [test, alt] && ps[0].value in FALSY && j.value == ps[1].value)
    case Call(name, args) => Asts(ps) == Listed(args) && j.value == lib.call(name, Values(ps))
    case Binary(op, left, right) => Asts(ps) == [left, right] && BinaryRule(lib, op, ps[0].value, ps[1].value, j.value)
  }

  ghost function Asts(ps: seq<Judgement>): (r: seq<Ast>)
    ensures |r| == |ps|
  {
    seq(|ps|, i requires 0 <= i < |ps| => ps[i].ast)
  }

  ghost function Values(ps: seq<Judgement>): (r: seq<X>)
    ensures |r| == |ps|
  {
    seq(|ps|, i requires 0 <= i < |ps| => ps[i].value)
  }

  function Listed(args: Args): seq<Ast> {
    match args
    case NoArgs => []
    case Arg(head, tail) => [head] + Listed(tail)
  }

  ghost predicate IndexRule(lib: Library, target: X, key: X, value: X) {
    || (key.XNum? && value == lib.readIndex(target, key.number))
    || (key.XStr? && value == lib.readName(target, key.text))
    || (!key.XNum? && !key.XStr? && value == XNull)
  }

  ghost predicate UnaryRule(lib: Library, op: UnaryOp, arg: X, value: X) {
    || (op == Not && value == XBool(arg in FALSY))
    || (op == Neg && arg.XNum? && value == lib.num(-arg.number))
    || (op == Pos && arg.XNum? && value == lib.num(arg.number))
    || (op != Not && !arg.XNum? && value == XNull)
  }

  ghost predicate BinaryRule(lib: Library, op: BinaryOp, lhs: X, rhs: X, value: X) {
    || (op == Eq && value == XBool(lhs == rhs && !lhs.XJson?))
    || (op == Ne && value == XBool(lhs != rhs || lhs.XJson?))
    || (op == Lt && value == XBool(IsLess(lhs, rhs)))
    || (op == Gt && value == XBool(IsLess(rhs, lhs)))
    || (op == Le && value == XBool(Ordered(lhs, rhs) && !IsLess(rhs, lhs)))
    || (op == Ge && value == XBool(Ordered(lhs, rhs) && !IsLess(lhs, rhs)))
    || (op == Add && (lhs.XStr? || rhs.XStr?) && (lhs.XJson? || rhs.XJson?) && value == XNull)
    || (op == Add && (lhs.XStr? || rhs.XStr?) && !lhs.XJson? && !rhs.XJson?
        && value == XStr(Rendered(lib, lhs) + Rendered(lib, rhs)))
    || (op == Add && !lhs.XStr? && !rhs.XStr? && NumberRule(lib, op, lhs, rhs, value))
    || (op in {Sub, Mul, Div, Rem} && NumberRule(lib, op, lhs, rhs, value))
  }

  /** Arithmetic takes two numbers, and divides by none that is zero. */
  ghost predicate NumberRule(lib: Library, op: BinaryOp, lhs: X, rhs: X, value: X) {
    if lhs.XNum? && rhs.XNum? && !(op in {Div, Rem} && rhs.number == 0.0)
    then value == lib.arithmetic(op, lhs.number, rhs.number)
    else value == XNull
  }

  ghost predicate Ordered(lhs: X, rhs: X) { (lhs.XNum? && rhs.XNum?) || (lhs.XStr? && rhs.XStr?) }

  /** Numbers by size; texts by the first place where they part, or as a beginning of the other. */
  ghost predicate IsLess(lhs: X, rhs: X) {
    || (lhs.XNum? && rhs.XNum? && lhs.number < rhs.number)
    || (lhs.XStr? && rhs.XStr? && TextLess(lhs.text, rhs.text))
  }

  ghost predicate TextLess(x: string, y: string) { exists k: nat :: PartsBelow(x, y, k) }

  ghost predicate PartsBelow(x: string, y: string, k: nat) {
    k <= |x| && k < |y| && x[..k] == y[..k] && (k == |x| || x[k] < y[k])
  }

  // ----- Derivations -----

  ghost function Conclusions(ds: seq<Derivation>): (r: seq<Judgement>)
    ensures |r| == |ds|
  {
    seq(|ds|, i requires 0 <= i < |ds| => ds[i].conclusion)
  }

  ghost predicate Valid(lib: Library, b: Bindings, d: Derivation) {
    && ByRule(lib, b, d.conclusion, Conclusions(d.premises))
    && forall i :: 0 <= i < |d.premises| ==> Valid(lib, b, d.premises[i])
  }

  ghost predicate Derivable(lib: Library, b: Bindings, a: Ast, v: X) {
    exists d :: Valid(lib, b, d) && d.conclusion == Judgement(a, v)
  }

  // ----- The texts' order -----

  lemma {:induction false} OrderIsLess(x: string, y: string)
    ensures TextOrder(x, y) == Below <==> TextLess(x, y)
    ensures TextOrder(x, y) == Above <==> TextLess(y, x)
    ensures TextOrder(x, y) == Same <==> x == y
  {
    hide TextLess;
    if x == [] || y == [] || x[0] != y[0] {
      PartsAtOnce(x, y);
      PartsAtOnce(y, x);
    } else {
      OrderIsLess(x[1..], y[1..]);
      PartsLater(x, y);
      PartsLater(y, x);
      assert x == [x[0]] + x[1..] && y == [y[0]] + y[1..];
    }
  }

  lemma PartsAtOnce(x: string, y: string)
    requires x == [] || y == [] || x[0] != y[0]
    ensures TextLess(x, y) <==> y != [] && (x == [] || x[0] < y[0])
  {
    if y != [] && (x == [] || x[0] < y[0]) {
      assert PartsBelow(x, y, 0);
    }
    forall k: nat | PartsBelow(x, y, k) ensures k == 0 {
      PartsStart(x, y, k);
    }
  }

  lemma PartsStart(x: string, y: string, k: nat)
    requires PartsBelow(x, y, k)
    ensures k > 0 ==> x != [] && y != [] && x[0] == y[0]
  {
    if k > 0 {
      assert x[..k][0] == x[0] && y[..k][0] == y[0];
    }
  }

  lemma PartsLater(x: string, y: string)
    requires x != [] && y != [] && x[0] == y[0]
    ensures TextLess(x, y) <==> TextLess(x[1..], y[1..])
  {
    if TextLess(x, y) {
      var k: nat :| PartsBelow(x, y, k);
      assert x[1..][..k - 1] == x[..k][1..] && y[1..][..k - 1] == y[..k][1..];
      assert PartsBelow(x[1..], y[1..], k - 1);
    }
    if TextLess(x[1..], y[1..]) {
      var k: nat :| PartsBelow(x[1..], y[1..], k);
      assert x[..k + 1] == [x[0]] + x[1..][..k] && y[..k + 1] == [y[0]] + y[1..][..k];
      assert PartsBelow(x, y, k + 1);
    }
  }

  lemma CompareIsLess(lhs: X, rhs: X)
    ensures Compare(Lt, lhs, rhs) <==> IsLess(lhs, rhs)
    ensures Compare(Gt, lhs, rhs) <==> IsLess(rhs, lhs)
    ensures Compare(Le, lhs, rhs) <==> Ordered(lhs, rhs) && !IsLess(rhs, lhs)
    ensures Compare(Ge, lhs, rhs) <==> Ordered(lhs, rhs) && !IsLess(lhs, rhs)
  {
    hide TextOrder, TextLess;
    if lhs.XStr? && rhs.XStr? {
      OrderIsLess(lhs.text, rhs.text);
    }
  }

  // ----- One rule, one value -----

  lemma TruthyIsNotFalsy(v: X)
    ensures Truthy(v) <==> v !in FALSY
  {
  }

  lemma BinaryValue(lib: Library, op: BinaryOp, lhs: X, rhs: X, value: X)
    ensures BinaryRule(lib, op, lhs, rhs, value) <==> value == EvalBinary(lib, op, lhs, rhs)
  {
    hide Compare, IsLess, Ordered, Rendered;
    CompareIsLess(lhs, rhs);
  }

  lemma UnaryValue(lib: Library, op: UnaryOp, arg: X, value: X)
    ensures UnaryRule(lib, op, arg, value) <==> value == EvalUnary(lib, op, arg)
  {
    TruthyIsNotFalsy(arg);
  }

  lemma {:induction false} ArgsEvaluated(lib: Library, args: Args, b: Bindings)
    ensures |EvalArgs(lib, args, b)| == |Listed(args)|
    ensures forall i :: 0 <= i < |Listed(args)| ==> EvalArgs(lib, args, b)[i] == Eval(lib, Listed(args)[i], b)
  {
    hide Eval;
    if args.Arg? {
      ArgsEvaluated(lib, args.tail, b);
    }
  }

  ghost predicate Evaluated(lib: Library, b: Bindings, ps: seq<Judgement>) {
    forall i :: 0 <= i < |ps| ==> ps[i].value == Eval(lib, ps[i].ast, b)
  }

  /** A rule applied to what its premises evaluate to gives what the conclusion evaluates to. */
  lemma RuleGivesValue(lib: Library, b: Bindings, j: Judgement, ps: seq<Judgement>)
    requires Evaluated(lib, b, ps) && ByRule(lib, b, j, ps)
    ensures j.value == Eval(lib, j.ast, b)
  {
    hide EvalUnary, EvalBinary, UnaryRule, BinaryRule, Truthy, EvalArgs, Listed, FALSY;
    match j.ast
    case Member(obj, _) => FirstOf(ps, obj);
    case Index(obj, index) => BothOf(ps, obj, index);
    case Unary(op, arg) =>
      FirstOf(ps, arg);
      UnaryValue(lib, op, ps[0].value, j.value);
    case Binary(op, left, right) =>
      BothOf(ps, left, right);
      BinaryValue(lib, op, ps[0].value, ps[1].value, j.value);
    case Logical(op, left, right) =>
      LogicalGivesValue(lib, b, j, ps);
    case Cond(test, cons, alt) =>
      TruthyIsNotFalsy(ps[0].value);
      if Asts(ps) == [test, cons] && ps[0].value !in FALSY {
        BothOf(ps, test, cons);
      } else {
        BothOf(ps, test, alt);
      }
    case Call(_, args) => CallGivesValue(lib, b, args, ps);
    case _ =>
  }

  lemma FirstOf(ps: seq<Judgement>, a: Ast)
    requires Asts(ps) == [a]
    ensures |ps| == 1 && ps[0].ast == a
  {
    assert Asts(ps)[0] == a;
  }

  lemma BothOf(ps: seq<Judgement>, a: Ast, c: Ast)
    requires Asts(ps) == [a, c]
    ensures |ps| == 2 && ps[0].ast == a && ps[1].ast == c
  {
    assert Asts(ps)[0] == a && Asts(ps)[1] == c;
  }

  lemma LogicalGivesValue(lib: Library, b: Bindings, j: Judgement, ps: seq<Judgement>)
    requires j.ast.Logical? && Evaluated(lib, b, ps) && ByRule(lib, b, j, ps)
    ensures j.value == Eval(lib, j.ast, b)
  {
    hide Truthy, Asts, FALSY;
    TruthyIsNotFalsy(ps[0].value);
    if Asts(ps) == [j.ast.left] {
      FirstOf(ps, j.ast.left);
    } else {
      BothOf(ps, j.ast.left, j.ast.right);
    }
  }

  lemma CallGivesValue(lib: Library, b: Bindings, args: Args, ps: seq<Judgement>)
    requires Evaluated(lib, b, ps) && Asts(ps) == Listed(args)
    ensures Values(ps) == EvalArgs(lib, args, b)
  {
    hide Eval, EvalArgs, Listed;
    ArgsEvaluated(lib, args, b);
    forall i | 0 <= i < |ps| ensures Values(ps)[i] == EvalArgs(lib, args, b)[i] {
      assert Asts(ps)[i] == Listed(args)[i];
    }
  }

  /** Whatever is derived is what the expression evaluates to. */
  lemma {:induction false} DerivedIsEvaluated(lib: Library, b: Bindings, d: Derivation)
    requires Valid(lib, b, d)
    ensures d.conclusion.value == Eval(lib, d.conclusion.ast, b)
  {
    hide ByRule, Eval;
    var ps := Conclusions(d.premises);
    forall i | 0 <= i < |ps| ensures ps[i].value == Eval(lib, ps[i].ast, b) {
      DerivedIsEvaluated(lib, b, d.premises[i]);
    }
    RuleGivesValue(lib, b, d.conclusion, ps);
  }

  // ----- Every value is derived -----

  /** The expressions evaluated on the way to the value of `a`. */
  ghost function Parts(lib: Library, b: Bindings, a: Ast): seq<Ast> {
    match a
    case Member(obj, _) => [obj]
    case Index(obj, index) => [obj, index]
    case Unary(_, arg) => [arg]
    case Binary(_, left, right) => [left, right]
    case Logical(op, left, right) => if Settles(op, Eval(lib, left, b)) then [left] else [left, right]
    case Cond(test, cons, alt) => [test, if Eval(lib, test, b) in FALSY then alt else cons]
    case Call(_, args) => Listed(args)
    case _ => []
  }

  ghost function Judged(lib: Library, b: Bindings, asts: seq<Ast>): (r: seq<Judgement>)
    ensures |r| == |asts|
  {
    seq(|asts|, i requires 0 <= i < |asts| => Judgement(asts[i], Eval(lib, asts[i], b)))
  }

  lemma JudgedAsts(lib: Library, b: Bindings, asts: seq<Ast>)
    ensures Asts(Judged(lib, b, asts)) == asts && Evaluated(lib, b, Judged(lib, b, asts))
  {
    hide Eval;
  }

  lemma ValueByRule(lib: Library, b: Bindings, a: Ast)
    ensures ByRule(lib, b, Judgement(a, Eval(lib, a, b)), Judged(lib, b, Parts(lib, b, a)))
  {
    hide EvalUnary, EvalBinary, UnaryRule, BinaryRule, Truthy, Asts, EvalArgs, Listed, FALSY;
    var ps := Judged(lib, b, Parts(lib, b, a));
    JudgedAsts(lib, b, Parts(lib, b, a));
    match a
    case Unary(op, arg) => UnaryValue(lib, op, ps[0].value, Eval(lib, a, b));
    case Binary(op, left, right) => BinaryValue(lib, op, ps[0].value, ps[1].value, Eval(lib, a, b));
    case Logical(_, left, _) => TruthyIsNotFalsy(Eval(lib, left, b));
    case Cond(test, _, _) => TruthyIsNotFalsy(Eval(lib, test, b));
    case Call(_, args) => CallGivesValue(lib, b, args, ps);
    case _ =>
  }

  lemma {:induction false} PartsAreSmaller(lib: Library, b: Bindings, a: Ast, i: nat)
    requires i < |Parts(lib, b, a)|
    ensures Size(Parts(lib, b, a)[i]) < Size(a)
  {
    hide Eval, Settles;
    if a.Call? {
      ListedAreSmaller(a.args, i);
    }
  }

  lemma {:induction false} ListedAreSmaller(args: Args, i: nat)
    requires i < |Listed(args)|
    ensures Size(Listed(args)[i]) <= ArgsSize(args)
  {
    if i > 0 {
      ListedAreSmaller(args.tail, i - 1);
    }
  }

  lemma {:induction false} EvaluatedIsDerived(lib: Library, b: Bindings, a: Ast) returns (d: Derivation)
    ensures Valid(lib, b, d) && d.conclusion == Judgement(a, Eval(lib, a, b))
    decreases Size(a), 1
  {
    hide Eval, ByRule, Parts;
    var parts := Parts(lib, b, a);
    forall i | 0 <= i < |parts| ensures Size(parts[i]) < Size(a) {
      PartsAreSmaller(lib, b, a, i);
    }
    var ds := PartsDerived(lib, b, a, parts);
    d := Derivation(Judgement(a, Eval(lib, a, b)), ds);
    ValueByRule(lib, b, a);
    assert Conclusions(ds) == Judged(lib, b, parts);
  }

  lemma {:induction false} PartsDerived(lib: Library, b: Bindings, a: Ast, parts: seq<Ast>)
    returns (ds: seq<Derivation>)
    requires forall i :: 0 <= i < |parts| ==> Size(parts[i]) < Size(a)
    ensures |ds| == |parts|
    ensures forall i :: 0 <= i < |ds| ==>
      Valid(lib, b, ds[i]) && ds[i].conclusion == Judgement(parts[i], Eval(lib, parts[i], b))
    decreases Size(a), 0, |parts|
  {
    hide Eval, ByRule, Valid;
    if parts == [] {
      ds := [];
    } else {
      var front, last := parts[..|parts| - 1], parts[|parts| - 1];
      var before := PartsDerived(lib, b, a, front);
      var d := EvaluatedIsDerived(lib, b, last);
      ds := before + [d];
    }
  }

  /** An expression has exactly one value by the rules: the one it evaluates to. */
  lemma EvaluationIsByTheRules(lib: Library, b: Bindings, a: Ast, v: X)
    ensures Derivable(lib, b, a, v) <==> v == Eval(lib, a, b)
  {
    hide Eval, ByRule, Valid;
    var d := EvaluatedIsDerived(lib, b, a);
    forall e | Valid(lib, b, e) && e.conclusion == Judgement(a, v) ensures v == Eval(lib, a, b) {
      DerivedIsEvaluated(lib, b, e);
    }
  }
}
