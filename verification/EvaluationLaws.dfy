/**
 Laws between the constructs of an expression (crates/xript-expr/src/eval.rs), for every library of
 values and all bindings.
 */
module EvaluationLaws {
  import opened Prelude
  import opened Expressions
  import opened Evaluation
  import opened EvaluationRules

  /** Both expressions always have one value. */
  ghost predicate Alike(lib: Library, b: Bindings, x: Ast, y: Ast) { Eval(lib, x, b) == Eval(lib, y, b) }

  lemma BinaryIs(lib: Library, b: Bindings, op: BinaryOp, x: Ast, y: Ast)
    ensures Eval(lib, Binary(op, x, y), b) == EvalBinary(lib, op, Eval(lib, x, b), Eval(lib, y, b))
  {
    hide EvalBinary;
  }

  lemma NotIs(lib: Library, b: Bindings, x: Ast)
    ensures Eval(lib, Unary(Not, x), b) == XBool(!Truthy(Eval(lib, x, b)))
  {
    hide Truthy;
  }

  lemma CondIs(lib: Library, b: Bindings, test: Ast, x: Ast, y: Ast)
    ensures Eval(lib, Cond(test, x, y), b) == if Truthy(Eval(lib, test, b)) then Eval(lib, x, b) else Eval(lib, y, b)
  {
    hide Truthy;
  }

  lemma LogicalIs(lib: Library, b: Bindings, op: LogicalOp, x: Ast, y: Ast)
    ensures Eval(lib, Logical(op, x, y), b) == if Settles(op, Eval(lib, x, b)) then Eval(lib, x, b) else Eval(lib, y, b)
  {
    hide Truthy, FALSY;
    TruthyIsNotFalsy(Eval(lib, x, b));
  }

  lemma BoolIs(lib: Library, b: Bindings, yes: bool)
    ensures Eval(lib, Bool(yes), b) == XBool(yes)
  {
  }

  /** The connectives are choices on their left operand. */
  lemma ConnectivesAreChoices(lib: Library, b: Bindings, l: Ast, r: Ast)
    ensures Alike(lib, b, Logical(And, l, r), Cond(l, r, l))
    ensures Alike(lib, b, Logical(Or, l, r), Cond(l, l, r))
    ensures Alike(lib, b, Logical(Nullish, l, r), Cond(Binary(Eq, l, Null), r, l))
  {
    NullIs(lib, b);
  }

  /** A literal test picks its own branch, and a branch not taken may be any other. */
  lemma ChoicesPick(lib: Library, b: Bindings, test: Ast, x: Ast, y: Ast, other: Ast)
    ensures Alike(lib, b, Cond(Bool(true), x, y), x) && Alike(lib, b, Cond(Bool(false), x, y), y)
    ensures Alike(lib, b, Cond(test, x, y),
                  if Truthy(Eval(lib, test, b)) then Cond(test, x, other) else Cond(test, other, y))
  {
    hide Eval;
    CondIs(lib, b, Bool(true), x, y);
    CondIs(lib, b, Bool(false), x, y);
    BoolIs(lib, b, true);
    BoolIs(lib, b, false);
    CondIs(lib, b, test, x, y);
    CondIs(lib, b, test, x, other);
    CondIs(lib, b, test, other, y);
  }

  /** A negated test exchanges the branches, and negation exchanges `&&` and `||`. */
  lemma NegationExchanges(lib: Library, b: Bindings, test: Ast, x: Ast, y: Ast)
    ensures Alike(lib, b, Cond(Unary(Not, test), x, y), Cond(test, y, x))
    ensures Alike(lib, b, Unary(Not, Logical(And, x, y)), Logical(Or, Unary(Not, x), Unary(Not, y)))
    ensures Alike(lib, b, Unary(Not, Logical(Or, x, y)), Logical(And, Unary(Not, x), Unary(Not, y)))
  {
    hide Eval, Truthy, FALSY;
    CondIs(lib, b, Unary(Not, test), x, y);
    CondIs(lib, b, test, y, x);
    NotIs(lib, b, test);
    NotIs(lib, b, x);
    NotIs(lib, b, y);
    NotIs(lib, b, Logical(And, x, y));
    NotIs(lib, b, Logical(Or, x, y));
    LogicalIs(lib, b, And, x, y);
    LogicalIs(lib, b, Or, x, y);
    LogicalIs(lib, b, Or, Unary(Not, x), Unary(Not, y));
    LogicalIs(lib, b, And, Unary(Not, x), Unary(Not, y));
    FalsyBools();
    TruthyIsNotFalsy(Eval(lib, x, b));
    TruthyIsNotFalsy(Eval(lib, y, b));
    TruthyBools();
  }

  lemma FalsyBools()
    ensures XBool(false) in FALSY && XBool(true) !in FALSY
  {
  }

  lemma TruthyBools()
    ensures Truthy(XBool(true)) && !Truthy(XBool(false))
  {
  }

  /** Chains of one connective may be grouped either way. */
  lemma ConnectivesAssociate(lib: Library, b: Bindings, op: LogicalOp, x: Ast, y: Ast, z: Ast)
    ensures Alike(lib, b, Logical(op, Logical(op, x, y), z), Logical(op, x, Logical(op, y, z)))
  {
    hide Eval, Settles;
    LogicalIs(lib, b, op, x, y);
    LogicalIs(lib, b, op, y, z);
    LogicalIs(lib, b, op, Logical(op, x, y), z);
    LogicalIs(lib, b, op, x, Logical(op, y, z));
  }

  /** Each comparison is another one turned round, `!=` is the negation of `==`, and `==` is symmetric. */
  lemma ComparisonsMirror(lib: Library, b: Bindings, x: Ast, y: Ast)
    ensures Alike(lib, b, Binary(Lt, x, y), Binary(Gt, y, x)) && Alike(lib, b, Binary(Le, x, y), Binary(Ge, y, x))
    ensures Alike(lib, b, Binary(Ne, x, y), Unary(Not, Binary(Eq, x, y)))
    ensures Alike(lib, b, Binary(Eq, x, y), Binary(Eq, y, x))
  {
    hide Eval, Compare, IsLess;
    CompareIsLess(Eval(lib, x, b), Eval(lib, y, b));
    CompareIsLess(Eval(lib, y, b), Eval(lib, x, b));
    BinaryIs(lib, b, Lt, x, y);
    BinaryIs(lib, b, Gt, y, x);
    BinaryIs(lib, b, Le, x, y);
    BinaryIs(lib, b, Ge, y, x);
    BinaryIs(lib, b, Ne, x, y);
    BinaryIs(lib, b, Eq, x, y);
    BinaryIs(lib, b, Eq, y, x);
    NotIs(lib, b, Binary(Eq, x, y));
  }

  lemma OrderedOneWay(u: X, v: X)
    requires Ordered(u, v)
    ensures IsLess(u, v) ==> !StrictEqual(u, v) && !IsLess(v, u)
    ensures IsLess(v, u) ==> !StrictEqual(u, v)
    ensures !IsLess(u, v) && !IsLess(v, u) ==> StrictEqual(u, v)
  {
    hide TextLess, TextOrder;
    if u.XStr? {
      OrderIsLess(u.text, v.text);
    }
  }

  /** Two numbers or two texts are below, equal or above, exactly one of them; other values are not ordered. */
  lemma OneOfThree(lib: Library, b: Bindings, x: Ast, y: Ast)
    ensures var below, same, above := Eval(lib, Binary(Lt, x, y), b), Eval(lib, Binary(Eq, x, y), b),
        Eval(lib, Binary(Gt, x, y), b);
      if Ordered(Eval(lib, x, b), Eval(lib, y, b))
      then || (below == XBool(true) && same == above == XBool(false))
           || (same == XBool(true) && below == above == XBool(false))
           || (above == XBool(true) && below == same == XBool(false))
      else below == above == XBool(false)
  {
    hide Eval, Compare, StrictEqual, IsLess;
    var v, w := Eval(lib, x, b), Eval(lib, y, b);
    BinaryIs(lib, b, Lt, x, y);
    BinaryIs(lib, b, Gt, x, y);
    BinaryIs(lib, b, Eq, x, y);
    CompareIsLess(v, w);
    LessIsOrdered(v, w);
    if Ordered(v, w) {
      OrderedOneWay(v, w);
    }
  }

  lemma LessIsOrdered(u: X, v: X)
    ensures IsLess(u, v) || IsLess(v, u) ==> Ordered(u, v)
  {
    hide TextLess;
  }

  /** `<=` is below or equal, wherever there is an order at all. */
  lemma LessOrEqual(lib: Library, b: Bindings, x: Ast, y: Ast)
    ensures if Ordered(Eval(lib, x, b), Eval(lib, y, b))
      then Alike(lib, b, Binary(Le, x, y), Logical(Or, Binary(Lt, x, y), Binary(Eq, x, y)))
      else Eval(lib, Binary(Le, x, y), b) == XBool(false)
  {
    hide Eval, Compare, StrictEqual, IsLess, FALSY;
    var v, w := Eval(lib, x, b), Eval(lib, y, b);
    BinaryIs(lib, b, Lt, x, y);
    BinaryIs(lib, b, Le, x, y);
    BinaryIs(lib, b, Eq, x, y);
    LogicalIs(lib, b, Or, Binary(Lt, x, y), Binary(Eq, x, y));
    FalsyBools();
    CompareIsLess(v, w);
    LessIsOrdered(v, w);
    if Ordered(v, w) {
      OrderedOneWay(v, w);
    }
  }

  /** `<` is transitive. */
  lemma LessIsTransitive(u: X, v: X, w: X)
    requires Compare(Lt, u, v) && Compare(Lt, v, w)
    ensures Compare(Lt, u, w)
  {
    hide Compare;
    CompareIsLess(u, v);
    CompareIsLess(v, w);
    CompareIsLess(u, w);
    if u.XStr? {
      TextLessIsTransitive(u.text, v.text, w.text);
    }
  }

  lemma TextLessIsTransitive(x: string, y: string, z: string)
    requires TextLess(x, y) && TextLess(y, z)
    ensures TextLess(x, z)
  {
    var i: nat :| PartsBelow(x, y, i);
    var j: nat :| PartsBelow(y, z, j);
    var k := if i <= j then i else j;
    assert x[..k] == x[..i][..k] && z[..k] == z[..j][..k] && y[..k] == y[..i][..k] == y[..j][..k];
    assert i < j ==> z[..j][i] == y[..j][i];
    assert j < i ==> x[..i][j] == y[..i][j];
    assert PartsBelow(x, z, k);
  }

  /** Texts are put together in order, in whichever groups; `null` adds nothing to a text. */
  lemma TextsJoin(lib: Library, b: Bindings, x: Ast, y: Ast, z: Ast)
    requires Eval(lib, x, b).XStr? && Eval(lib, y, b).XStr? && Eval(lib, z, b).XStr?
    ensures Eval(lib, Binary(Add, x, y), b) == XStr(Eval(lib, x, b).text + Eval(lib, y, b).text)
    ensures Alike(lib, b, Binary(Add, Binary(Add, x, y), z), Binary(Add, x, Binary(Add, y, z)))
    ensures Alike(lib, b, Binary(Add, x, Null), x) && Alike(lib, b, Binary(Add, Null, x), x)
  {
    hide Eval, Truthy, StrictEqual, Compare;
    var u, v, w := Eval(lib, x, b), Eval(lib, y, b), Eval(lib, z, b);
    BinaryIs(lib, b, Add, x, y);
    BinaryIs(lib, b, Add, y, z);
    BinaryIs(lib, b, Add, Binary(Add, x, y), z);
    BinaryIs(lib, b, Add, x, Binary(Add, y, z));
    BinaryIs(lib, b, Add, x, Null);
    BinaryIs(lib, b, Add, Null, x);
    Regrouped(u.text, v.text, w.text);
    assert u.text + "" == u.text == "" + u.text;
    NullIs(lib, b);
  }

  lemma NullIs(lib: Library, b: Bindings)
    ensures Eval(lib, Null, b) == XNull
  {
  }

  /** A truth value joins a text as its own word. */
  lemma TruthsJoinAsWords(lib: Library, b: Bindings, x: Ast, yes: bool)
    requires Eval(lib, x, b).XStr?
    ensures Alike(lib, b, Binary(Add, x, Bool(yes)), Binary(Add, x, Str(if yes then "true" else "false")))
    ensures Alike(lib, b, Binary(Add, Bool(yes), x), Binary(Add, Str(if yes then "true" else "false"), x))
  {
    hide Eval, Truthy, StrictEqual, Compare;
    var word := if yes then "true" else "false";
    BoolIs(lib, b, yes);
    StrIs(lib, b, word);
    BinaryIs(lib, b, Add, x, Bool(yes));
    BinaryIs(lib, b, Add, x, Str(word));
    BinaryIs(lib, b, Add, Bool(yes), x);
    BinaryIs(lib, b, Add, Str(word), x);
  }

  lemma StrIs(lib: Library, b: Bindings, text: string)
    ensures Eval(lib, Str(text), b) == XStr(text)
  {
  }

  /** A text in brackets reads the member of that name. */
  lemma BracketedTextIsMember(lib: Library, b: Bindings, obj: Ast, name: string)
    ensures Alike(lib, b, Index(obj, Str(name)), Member(obj, name))
  {
    StrIs(lib, b, name);
  }

  // ----- A name stands for its value -----

  function Replaced(a: Ast, name: string, e: Ast): Ast {
    match a
    case Name(n) => if n == name then e else a
    case Member(obj, member) => Member(Replaced(obj, name, e), member)
    case Index(obj, index) => Index(Replaced(obj, name, e), Replaced(index, name, e))
    case Unary(op, arg) => Unary(op, Replaced(arg, name, e))
    case Binary(op, left, right) => Binary(op, Replaced(left, name, e), Replaced(right, name, e))
    case Logical(op, left, right) => Logical(op, Replaced(left, name, e), Replaced(right, name, e))
    case Cond(test, cons, alt) => Cond(Replaced(test, name, e), Replaced(cons, name, e), Replaced(alt, name, e))
    case Call(n, args) => Call(n, ReplacedArgs(args, name, e))
    case _ => a
  }

  function ReplacedArgs(args: Args, name: string, e: Ast): Args {
    match args
    case NoArgs => NoArgs
    case Arg(head, tail) => Arg(Replaced(head, name, e), ReplacedArgs(tail, name, e))
  }

  /** Writing an expression in place of a name is binding the name to that expression's value. */
  lemma {:induction false} NameStandsForValue(lib: Library, a: Ast, name: string, e: Ast, b: Bindings)
    ensures Eval(lib, Replaced(a, name, e), b) == Eval(lib, a, b[name := Eval(lib, e, b)])
  {
    hide EvalUnary, EvalBinary, Truthy;
    match a
    case Member(obj, _) => NameStandsForValue(lib, obj, name, e, b);
    case Index(obj, index) =>
      NameStandsForValue(lib, obj, name, e, b);
      NameStandsForValue(lib, index, name, e, b);
    case Unary(_, arg) => NameStandsForValue(lib, arg, name, e, b);
    case Binary(_, left, right) =>
      NameStandsForValue(lib, left, name, e, b);
      NameStandsForValue(lib, right, name, e, b);
    case Logical(_, left, right) =>
      NameStandsForValue(lib, left, name, e, b);
      NameStandsForValue(lib, right, name, e, b);
    case Cond(test, cons, alt) =>
      NameStandsForValue(lib, test, name, e, b);
      NameStandsForValue(lib, cons, name, e, b);
      NameStandsForValue(lib, alt, name, e, b);
    case Call(_, args) => NameStandsForValues(lib, args, name, e, b);
    case _ =>
  }

  lemma {:induction false} NameStandsForValues(lib: Library, args: Args, name: string, e: Ast, b: Bindings)
    ensures EvalArgs(lib, ReplacedArgs(args, name, e), b) == EvalArgs(lib, args, b[name := Eval(lib, e, b)])
  {
    hide Eval;
    if args.Arg? {
      NameStandsForValue(lib, args.head, name, e, b);
      NameStandsForValues(lib, args.tail, name, e, b);
    }
  }
}
