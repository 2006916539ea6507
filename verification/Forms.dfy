/**
 How expressions may be written: forms with their parentheses, the precedence that decides where an
 operand needs them, and what a form means. Nothing here says how an expression is parsed.
 */
module Forms {
  import opened Prelude
  import opened Expressions
  import opened Grammar

  function UnarySym(op: UnaryOp): Sym {
    match op case Not => Bang case Neg => Minus case Pos => Plus
  }

  function BinarySym(op: BinaryOp): Sym {
    match op
    case Eq => EqEq case Ne => NotEq case Lt => Less case Le => LessEq case Gt => More case Ge => MoreEq
    case Add => Plus case Sub => Minus case Mul => Star case Div => Slash case Rem => Percent
  }

  function LogicalSym(op: LogicalOp): Sym {
    match op case And => AndAnd case Or => OrOr case Nullish => QueryQuery
  }

  function OpSym(op: Op): Sym {
    match op case Arithmetic(binary) => BinarySym(binary) case Choice(logical) => LogicalSym(logical)
  }

  /** How tightly an operator binds. */
  function Rank(op: Op): (rank: nat)
    ensures 1 <= rank <= 7
  {
    match op
    case Choice(Nullish) => 1
    case Choice(Or) => 2
    case Choice(And) => 3
    case Arithmetic(Eq) => 4 case Arithmetic(Ne) => 4
    case Arithmetic(Lt) => 5 case Arithmetic(Le) => 5 case Arithmetic(Gt) => 5 case Arithmetic(Ge) => 5
    case Arithmetic(Add) => 6 case Arithmetic(Sub) => 6
    case Arithmetic(Mul) => 7 case Arithmetic(Div) => 7 case Arithmetic(Rem) => 7
  }

  datatype Form =
    | Leaf(tok: Tok)
    | Group(inner: Form)
    | Applied(name: string, args: FormList)
    | Dotted(obj: Form, member: string)
    | Indexed(obj: Form, index: Form)
    | Prefixed(unary: UnaryOp, arg: Form)
    | Infix(op: Op, left: Form, right: Form)
    | Choose(test: Form, cons: Form, alt: Form)

  datatype FormList = NoForms | OneMore(head: Form, tail: FormList)

  function Tokens(t: Form): (tokens: seq<Tok>)
    ensures tokens != []
  {
    match t
    case Leaf(tok) => [tok]
    case Group(inner) => [Punct(OpenParen)] + Tokens(inner) + [Punct(CloseParen)]
    case Applied(name, args) => [Word(name)] + [Punct(OpenParen)] + ListTokens(args) + [Punct(CloseParen)]
    case Dotted(obj, member) => Tokens(obj) + [Punct(Dot)] + [Word(member)]
    case Indexed(obj, index) => Tokens(obj) + [Punct(OpenBracket)] + Tokens(index) + [Punct(CloseBracket)]
    case Prefixed(op, arg) => [Punct(UnarySym(op))] + Tokens(arg)
    case Infix(op, left, right) => Tokens(left) + [Punct(OpSym(op))] + Tokens(right)
    case Choose(test, cons, alt) => Tokens(test) + [Punct(Query)] + Tokens(cons) + [Punct(Colon)] + Tokens(alt)
  }

  function ListTokens(args: FormList): seq<Tok> {
    match args
    case NoForms => []
    case OneMore(head, NoForms) => Tokens(head)
    case OneMore(head, tail) => Tokens(head) + [Punct(Comma)] + ListTokens(tail)
  }

  /** How tightly the outermost part of a form binds. */
  function Tightness(t: Form): (level: nat)
    ensures level <= 10
  {
    match t
    case Choose(_, _, _) => 0
    case Infix(op, _, _) => Rank(op)
    case Prefixed(_, _) => 8
    case Dotted(_, _) => 9
    case Indexed(_, _) => 9
    case _ => 10
  }

  /**
   Each operand binds at least as tightly as its place demands, so that chains lean to the left and
   conditions to the right; names are names, and builtins get as many arguments as they take.
   */
  predicate Grammatical(t: Form) {
    match t
    case Leaf(tok) => !tok.Punct? && (tok.Word? ==> Literal(tok.name) || !Reserved(tok.name))
    case Group(inner) => Grammatical(inner)
    case Applied(name, args) => Callable(name) && ArityFits(name, Length(args)) && ListGrammatical(args)
    case Dotted(obj, _) => Grammatical(obj) && Tightness(obj) >= 9
    case Indexed(obj, index) => Grammatical(obj) && Tightness(obj) >= 9 && Grammatical(index)
    case Prefixed(_, arg) => Grammatical(arg) && Tightness(arg) >= 8
    case Infix(op, left, right) =>
      Grammatical(left) && Tightness(left) >= Rank(op) && Grammatical(right) && Tightness(right) > Rank(op)
    case Choose(test, cons, alt) =>
      Grammatical(test) && Tightness(test) >= 1 && Grammatical(cons) && Grammatical(alt)
  }

  predicate ListGrammatical(args: FormList) {
    match args
    case NoForms => true
    case OneMore(head, tail) => Grammatical(head) && ListGrammatical(tail)
  }

  function Length(args: FormList): nat {
    match args
    case NoForms => 0
    case OneMore(_, tail) => 1 + Length(tail)
  }

  /** The expression a form stands for. */
  function Meaning(t: Form): Ast {
    match t
    case Leaf(NumTok(number)) => Num(number)
    case Leaf(StrTok(text)) => Str(text)
    case Leaf(Word(name)) =>
      if name == "true" then Bool(true) else if name == "false" then Bool(false)
      else if name == "null" then Null else Name(name)
    case Leaf(Punct(_)) => Null
    case Group(inner) => Meaning(inner)
    case Applied(name, args) => Call(name, Meanings(args))
    case Dotted(obj, member) => Member(Meaning(obj), member)
    case Indexed(obj, index) => Index(Meaning(obj), Meaning(index))
    case Prefixed(op, arg) => Unary(op, Meaning(arg))
    case Infix(Arithmetic(op), left, right) => Binary(op, Meaning(left), Meaning(right))
    case Infix(Choice(op), left, right) => Logical(op, Meaning(left), Meaning(right))
    case Choose(test, cons, alt) => Cond(Meaning(test), Meaning(cons), Meaning(alt))
  }

  function Meanings(args: FormList): (r: Args)
    ensures Count(r) == Length(args)
  {
    match args
    case NoForms => NoArgs
    case OneMore(head, tail) => Arg(Meaning(head), Meanings(tail))
  }

  /** How deeply the brackets of a form nest. */
  function Nesting(t: Form): nat {
    match t
    case Leaf(_) => 0
    case Group(inner) => 1 + Nesting(inner)
    case Applied(_, args) => 1 + ListNesting(args)
    case Dotted(obj, _) => Nesting(obj)
    case Indexed(obj, index) => Max(Nesting(obj), 1 + Nesting(index))
    case Prefixed(_, arg) => Nesting(arg)
    case Infix(_, left, right) => Max(Nesting(left), Nesting(right))
    case Choose(test, cons, alt) => Max(Nesting(test), Max(Nesting(cons), Nesting(alt)))
  }

  function ListNesting(args: FormList): nat {
    match args
    case NoForms => 0
    case OneMore(head, tail) => Max(Nesting(head), ListNesting(tail))
  }

  // ----- Two ways of writing an expression -----

  /** Names the grammar takes for names, and calls of builtins with as many arguments as they take. */
  predicate WellFormed(a: Ast) {
    match a
    case Name(name) => !Literal(name) && !Reserved(name)
    case Member(obj, _) => WellFormed(obj)
    case Index(obj, index) => WellFormed(obj) && WellFormed(index)
    case Unary(_, arg) => WellFormed(arg)
    case Binary(_, left, right) => WellFormed(left) && WellFormed(right)
    case Logical(_, left, right) => WellFormed(left) && WellFormed(right)
    case Cond(test, cons, alt) => WellFormed(test) && WellFormed(cons) && WellFormed(alt)
    case Call(name, args) => Callable(name) && ArityFits(name, Count(args)) && ArgsWellFormed(args)
    case _ => true
  }

  predicate ArgsWellFormed(args: Args) {
    match args
    case NoArgs => true
    case Arg(head, tail) => WellFormed(head) && ArgsWellFormed(tail)
  }

  /** In parentheses if `all` operands are, or if the place demands it. */
  function Operand(t: Form, level: nat, all: bool): Form { if all || Tightness(t) < level then Group(t) else t }

  /** The expression written with parentheses around all operands, or only where they are needed. */
  function FormOf(a: Ast, all: bool): Form {
    match a
    case Num(number) => Leaf(NumTok(number))
    case Str(text) => Leaf(StrTok(text))
    case Bool(yes) => Leaf(Word(if yes then "true" else "false"))
    case Null => Leaf(Word("null"))
    case Name(name) => Leaf(Word(name))
    case Member(obj, member) => Dotted(Operand(FormOf(obj, all), 9, all), member)
    case Index(obj, index) => Indexed(Operand(FormOf(obj, all), 9, all), FormOf(index, all))
    case Unary(op, arg) => Prefixed(op, Operand(FormOf(arg, all), 8, all))
    case Binary(op, left, right) => InfixOf(Arithmetic(op), FormOf(left, all), FormOf(right, all), all)
    case Logical(op, left, right) => InfixOf(Choice(op), FormOf(left, all), FormOf(right, all), all)
    case Cond(test, cons, alt) =>
      Choose(Operand(FormOf(test, all), 1, all), Operand(FormOf(cons, all), 0, all), Operand(FormOf(alt, all), 0, all))
    case Call(name, args) => Applied(name, FormsOf(args, all))
  }

  function InfixOf(op: Op, left: Form, right: Form, all: bool): Form {
    Infix(op, Operand(left, Rank(op), all), Operand(right, Rank(op) + 1, all))
  }

  function FormsOf(args: Args, all: bool): FormList {
    match args
    case NoArgs => NoForms
    case Arg(head, tail) => OneMore(FormOf(head, all), FormsOf(tail, all))
  }

  lemma OperandFits(t: Form, level: nat, all: bool)
    requires Grammatical(t) && level <= 9
    ensures Grammatical(Operand(t, level, all)) && Tightness(Operand(t, level, all)) >= level
    ensures Meaning(Operand(t, level, all)) == Meaning(t)
  {
  }

  /** Both ways of writing are grammatical and mean the expression itself. */
  lemma {:induction false} FormMeans(a: Ast, all: bool)
    requires WellFormed(a)
    ensures Grammatical(FormOf(a, all)) && Meaning(FormOf(a, all)) == a
  {
    hide Operand, Grammatical, Meaning, ListGrammatical, Meanings, Callable, ArityFits, InfixOf;
    match a
    case Member(obj, member) =>
      FormMeans(obj, all);
      SuffixFits(FormOf(obj, all), member, FormOf(obj, all), all);
    case Index(obj, index) =>
      FormMeans(obj, all);
      FormMeans(index, all);
      SuffixFits(FormOf(obj, all), "", FormOf(index, all), all);
    case Unary(op, arg) =>
      FormMeans(arg, all);
      PrefixFits(op, FormOf(arg, all), all);
    case Binary(op, left, right) =>
      FormMeans(left, all);
      FormMeans(right, all);
      InfixFits(Arithmetic(op), FormOf(left, all), FormOf(right, all), all);
    case Logical(op, left, right) =>
      FormMeans(left, all);
      FormMeans(right, all);
      InfixFits(Choice(op), FormOf(left, all), FormOf(right, all), all);
    case Cond(test, cons, alt) =>
      FormMeans(test, all);
      FormMeans(cons, all);
      FormMeans(alt, all);
      ChoiceFits(FormOf(test, all), FormOf(cons, all), FormOf(alt, all), all);
    case Call(name, args) =>
      FormsMean(args, all);
      CallFits(name, FormsOf(args, all));
    case _ => LeafMeans(a, all);
  }

  lemma SuffixFits(obj: Form, member: string, index: Form, all: bool)
    requires Grammatical(obj) && Grammatical(index)
    ensures var dotted, indexed := Dotted(Operand(obj, 9, all), member), Indexed(Operand(obj, 9, all), index);
      && Grammatical(dotted) && Meaning(dotted) == Member(Meaning(obj), member)
      && Grammatical(indexed) && Meaning(indexed) == Index(Meaning(obj), Meaning(index))
  {
    hide Operand;
    OperandFits(obj, 9, all);
  }

  lemma PrefixFits(op: UnaryOp, arg: Form, all: bool)
    requires Grammatical(arg)
    ensures Grammatical(Prefixed(op, Operand(arg, 8, all)))
    ensures Meaning(Prefixed(op, Operand(arg, 8, all))) == Unary(op, Meaning(arg))
  {
    hide Operand;
    OperandFits(arg, 8, all);
  }

  lemma ChoiceFits(test: Form, cons: Form, alt: Form, all: bool)
    requires Grammatical(test) && Grammatical(cons) && Grammatical(alt)
    ensures var t := Choose(Operand(test, 1, all), Operand(cons, 0, all), Operand(alt, 0, all));
      Grammatical(t) && Meaning(t) == Cond(Meaning(test), Meaning(cons), Meaning(alt))
  {
    hide Operand;
    OperandFits(test, 1, all);
    OperandFits(cons, 0, all);
    OperandFits(alt, 0, all);
  }

  lemma CallFits(name: string, args: FormList)
    requires ListGrammatical(args) && Callable(name) && ArityFits(name, Count(Meanings(args)))
    ensures Grammatical(Applied(name, args)) && Meaning(Applied(name, args)) == Call(name, Meanings(args))
  {
  }

  lemma {:induction false} LeafMeans(a: Ast, all: bool)
    requires WellFormed(a) && (a.Num? || a.Str? || a.Bool? || a.Null? || a.Name?)
    ensures Grammatical(FormOf(a, all)) && Meaning(FormOf(a, all)) == a
  {
    hide Reserved;
  }

  lemma {:induction false} FormsMean(args: Args, all: bool)
    requires ArgsWellFormed(args)
    ensures ListGrammatical(FormsOf(args, all)) && Meanings(FormsOf(args, all)) == args
  {
    if args.Arg? {
      FormMeans(args.head, all);
      FormsMean(args.tail, all);
    }
  }

  lemma InfixFits(op: Op, left: Form, right: Form, all: bool)
    requires Grammatical(left) && Grammatical(right)
    ensures Grammatical(InfixOf(op, left, right, all))
    ensures Meaning(InfixOf(op, left, right, all)) == Joined(op, Meaning(left), Meaning(right))
  {
    hide Operand, Rank, Tightness;
    OperandFits(left, Rank(op), all);
    OperandFits(right, Rank(op) + 1, all);
  }
}
