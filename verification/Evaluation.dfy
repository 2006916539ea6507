/**
 Evaluation, after crates/xript-expr/src/eval.rs. It is total, and reads no binding but those the
 parser reported. What rounded arithmetic, the spelling of numbers, lookups and builtins do is given
 as functions.
 */
module Evaluation {
  import opened Prelude
  import opened Expressions
  import opened ExpressionParser

  /** A value while it is evaluated; `XJson` stands for arrays and objects. */
  datatype X = XNull | XBool(yes: bool) | XNum(number: real) | XStr(text: string) | XJson(json: nat)

  type Bindings = map<string, X>

  /** What floating point, the spelling of numbers, lookups and builtins come to, whatever they are. */
  datatype Library = Library(
    num: real -> X,
    spell: real -> string,
    arithmetic: (BinaryOp, real, real) -> X,
    readName: (X, string) -> X,
    readIndex: (X, real) -> X,
    call: (string, seq<X>) -> X)

  predicate Truthy(v: X) {
    match v
    case XNull => false
    case XBool(yes) => yes
    case XNum(number) => number != 0.0
    case XStr(text) => text != ""
    case XJson(_) => true
  }

  function AsNumber(v: X): Option<real> { if v.XNum? then Some(v.number) else None }

  /** Two arrays or objects are never equal, even to themselves. */
  predicate StrictEqual(lhs: X, rhs: X) { lhs == rhs && !lhs.XJson? }

  datatype Ordering = Below | Same | Above

  /** Texts by their first code units that differ, a text that ends first below. */
  function TextOrder(a: string, b: string): Ordering {
    if a == [] then if b == [] then Same else Below
    else if b == [] || a[0] > b[0] then Above
    else if a[0] < b[0] then Below
    else TextOrder(a[1..], b[1..])
  }

  /** Two numbers or two texts have an order, and no other values. */
  function OrderOf(lhs: X, rhs: X): Option<Ordering> {
    match (lhs, rhs)
    case (XNum(x), XNum(y)) => Some(if x < y then Below else if x == y then Same else Above)
    case (XStr(x), XStr(y)) => Some(TextOrder(x, y))
    case _ => None
  }

  function Compare(op: BinaryOp, lhs: X, rhs: X): bool {
    match OrderOf(lhs, rhs)
    case None => false
    case Some(order) =>
      match op
      case Lt => order == Below
      case Le => order != Above
      case Gt => order == Above
      case Ge => order != Below
      case _ => false
  }

  /** A value that is no array or object, as text. */
  function Rendered(lib: Library, v: X): string {
    match v
    case XNull => ""
    case XBool(yes) => if yes then "true" else "false"
    case XNum(number) => lib.spell(number)
    case XStr(text) => text
    case XJson(_) => ""
  }

  function Eval(lib: Library, a: Ast, b: Bindings): X {
    match a
    case Num(number) => lib.num(number)
    case Str(text) => XStr(text)
    case Bool(yes) => XBool(yes)
    case Null => XNull
    case Name(name) => if name in b then b[name] else XNull
    case Member(obj, member) => lib.readName(Eval(lib, obj, b), member)
    case Index(obj, index) =>
      var target := Eval(lib, obj, b);
      (match Eval(lib, index, b)
       case XNum(number) => lib.readIndex(target, number)
       case XStr(text) => lib.readName(target, text)
       case _ => XNull)
    case Unary(op, arg) => EvalUnary(lib, op, Eval(lib, arg, b))
    case Logical(And, left, right) =>
      var lhs := Eval(lib, left, b);
      if Truthy(lhs) then Eval(lib, right, b) else lhs
    case Logical(Or, left, right) =>
      var lhs := Eval(lib, left, b);
      if Truthy(lhs) then lhs else Eval(lib, right, b)
    case Logical(Nullish, left, right) =>
      var lhs := Eval(lib, left, b);
      if lhs.XNull? then Eval(lib, right, b) else lhs
    case Cond(test, cons, alt) => if Truthy(Eval(lib, test, b)) then Eval(lib, cons, b) else Eval(lib, alt, b)
    case Call(name, args) => lib.call(name, EvalArgs(lib, args, b))
    case Binary(op, left, right) => EvalBinary(lib, op, Eval(lib, left, b), Eval(lib, right, b))
  }

  function EvalArgs(lib: Library, args: Args, b: Bindings): seq<X> {
    match args
    case NoArgs => []
    case Arg(head, tail) => [Eval(lib, head, b)] + EvalArgs(lib, tail, b)
  }

  function EvalUnary(lib: Library, op: UnaryOp, value: X): X {
    match op
    case Not => XBool(!Truthy(value))
    case Neg => if AsNumber(value).Some? then lib.num(-AsNumber(value).value) else XNull
    case Pos => if AsNumber(value).Some? then lib.num(AsNumber(value).value) else XNull
  }

  function EvalBinary(lib: Library, op: BinaryOp, lhs: X, rhs: X): X {
    match op
    case Eq => XBool(StrictEqual(lhs, rhs))
    case Ne => XBool(!StrictEqual(lhs, rhs))
    case Lt => XBool(Compare(op, lhs, rhs))
    case Le => XBool(Compare(op, lhs, rhs))
    case Gt => XBool(Compare(op, lhs, rhs))
    case Ge => XBool(Compare(op, lhs, rhs))
    case _ =>
      if op == Add && (lhs.XStr? || rhs.XStr?) then
        if lhs.XJson? || rhs.XJson? then XNull else XStr(Rendered(lib, lhs) + Rendered(lib, rhs))
      else
        match (AsNumber(lhs), AsNumber(rhs))
        case (Some(x), Some(y)) => if (op == Div || op == Rem) && y == 0.0 then XNull else lib.arithmetic(op, x, y)
        case _ => XNull
  }

  /** Both bind the same names to the same values, as far as `names` goes. */
  ghost predicate Agree(names: seq<string>, b: Bindings, c: Bindings) {
    forall x :: x in names ==> (x in b <==> x in c) && (x in b ==> b[x] == c[x])
  }

  lemma {:induction false} SameIdentifiersSameValue(lib: Library, a: Ast, b: Bindings, c: Bindings)
    requires Agree(Identifiers(a), b, c)
    ensures Eval(lib, a, b) == Eval(lib, a, c)
    decreases Size(a), 0
  {
    hide EvalUnary, EvalBinary, Agree;
    match a
    case Member(obj, _) => SameIdentifiersSameValue(lib, obj, b, c);
    case Index(obj, index) => SameBoth(lib, obj, index, b, c);
    case Unary(_, arg) => SameIdentifiersSameValue(lib, arg, b, c);
    case Binary(_, left, right) => SameBoth(lib, left, right, b, c);
    case Logical(_, left, right) => SameBoth(lib, left, right, b, c);
    case Cond(test, cons, alt) =>
      AgreeSplits(Identifiers(test) + Identifiers(cons), Identifiers(alt), b, c);
      SameBoth(lib, test, cons, b, c);
      SameIdentifiersSameValue(lib, alt, b, c);
    case Call(_, args) => SameIdentifiersSameArgs(lib, args, b, c);
    case Name(name) => AgreeOn(name, b, c);
    case _ =>
  }

  lemma AgreeOn(name: string, b: Bindings, c: Bindings)
    requires Agree([name], b, c)
    ensures (name in b <==> name in c) && (name in b ==> b[name] == c[name])
  {
    assert name in [name];
  }

  lemma AgreeSplits(x: seq<string>, y: seq<string>, b: Bindings, c: Bindings)
    requires Agree(x + y, b, c)
    ensures Agree(x, b, c) && Agree(y, b, c)
  {
  }

  lemma {:induction false} SameBoth(lib: Library, left: Ast, right: Ast, b: Bindings, c: Bindings)
    requires Agree(Identifiers(left) + Identifiers(right), b, c)
    ensures Eval(lib, left, b) == Eval(lib, left, c) && Eval(lib, right, b) == Eval(lib, right, c)
    decreases Size(left) + Size(right), 1
  {
    hide Eval, Agree, Identifiers;
    AgreeSplits(Identifiers(left), Identifiers(right), b, c);
    SameIdentifiersSameValue(lib, left, b, c);
    SameIdentifiersSameValue(lib, right, b, c);
  }

  lemma {:induction false} SameIdentifiersSameArgs(lib: Library, args: Args, b: Bindings, c: Bindings)
    requires Agree(ArgsIdentifiers(args), b, c)
    ensures EvalArgs(lib, args, b) == EvalArgs(lib, args, c)
    decreases ArgsSize(args), 1
  {
    hide Agree;
    if args.Arg? {
      AgreeSplits(Identifiers(args.head), ArgsIdentifiers(args.tail), b, c);
      SameIdentifiersSameValue(lib, args.head, b, c);
      SameIdentifiersSameArgs(lib, args.tail, b, c);
    }
  }

  /** Bindings that agree on the names of an expression evaluate alike. */
  lemma NamesDecide(lib: Library, a: Ast, b: Bindings, c: Bindings)
    requires Agree(AllNoted([], Identifiers(a)), b, c)
    ensures Eval(lib, a, b) == Eval(lib, a, c)
  {
    hide Eval, AllNoted, Identifiers;
    NotedAreTheIdentifiers([], Identifiers(a));
    SameIdentifiersSameValue(lib, a, b, c);
  }
}
