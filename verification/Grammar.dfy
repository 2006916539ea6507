/**
 The expression grammar, after crates/xript-expr/src/parser.rs: eight precedence levels over postfix
 and primary expressions, a cap on nodes and a cap on nested brackets.
 */
module Grammar {
  import opened Prelude
  import opened Expressions

  const MAX_EXPRESSION_DEPTH: nat := 64

  /** Where a parse stands: the tokens left, the nodes counted, the open brackets, the names read. */
  datatype State = State(rest: seq<Tok>, count: nat, depth: nat, names: seq<string>)

  datatype Parse = Parsed(ast: Ast, state: State) | Failed

  datatype ParseArgs = ParsedArgs(args: Args, state: State) | FailedArgs

  predicate At(s: State, sym: Sym) { s.rest != [] && s.rest[0] == Punct(sym) }

  function Next(s: State): State
    requires s.rest != []
  {
    s.(rest := s.rest[1..])
  }

  /** Counts a node against the cap. */
  function Node(cap: nat, ast: Ast, s: State): Parse {
    if s.count + 1 > cap then Failed else Parsed(ast, s.(count := s.count + 1))
  }

  const RESERVED_WORDS: set<string> := {
    "function", "return", "var", "let", "const", "new", "delete", "typeof", "void", "in",
    "instanceof", "this", "class", "import", "export", "await", "yield", "if", "else", "for",
    "while", "do", "switch", "case", "try", "catch", "throw", "undefined", "globalThis", "eval",
    "arguments"
  }

  predicate Reserved(name: string) { name in RESERVED_WORDS }

  predicate Literal(name: string) { name == "true" || name == "false" || name == "null" }

  function LiteralOf(name: string): Ast {
    if name == "true" then Bool(true) else if name == "false" then Bool(false) else Null
  }

  /** How many arguments a builtin takes, at least and, unless it is variadic, at most. */
  function BuiltinArity(name: string): Option<(nat, Option<nat>)> {
    if name in {"abs", "round", "floor", "ceil", "upper", "lower", "trim", "len", "str", "num",
      "bool"} then Some((1, Some(1)))
    else if name in {"min", "max"} then Some((1, None))
    else if name == "clamp" then Some((3, Some(3)))
    else if name in {"fixed", "has", "at"} then Some((2, Some(2)))
    else if name in {"pad", "slice"} then Some((2, Some(3)))
    else if name == "join" then Some((1, Some(2)))
    else None
  }

  predicate Callable(name: string) { BuiltinArity(name).Some? }

  predicate ArityFits(name: string, n: nat)
    requires Callable(name)
  {
    var (least, most) := BuiltinArity(name).value;
    least <= n && (most.Some? ==> n <= most.value)
  }

  // ----- The seven levels of binary operators, loosest first -----

  datatype Op = Arithmetic(binary: BinaryOp) | Choice(logical: LogicalOp)

  function OpOf(level: nat, sym: Sym): Option<Op> {
    match sym
    case QueryQuery => if level == 1 then Some(Choice(Nullish)) else None
    case OrOr => if level == 2 then Some(Choice(Or)) else None
    case AndAnd => if level == 3 then Some(Choice(And)) else None
    case EqEq => if level == 4 then Some(Arithmetic(Eq)) else None
    case NotEq => if level == 4 then Some(Arithmetic(Ne)) else None
    case LessEq => if level == 5 then Some(Arithmetic(Le)) else None
    case MoreEq => if level == 5 then Some(Arithmetic(Ge)) else None
    case Less => if level == 5 then Some(Arithmetic(Lt)) else None
    case More => if level == 5 then Some(Arithmetic(Gt)) else None
    case Plus => if level == 6 then Some(Arithmetic(Add)) else None
    case Minus => if level == 6 then Some(Arithmetic(Sub)) else None
    case Star => if level == 7 then Some(Arithmetic(Mul)) else None
    case Slash => if level == 7 then Some(Arithmetic(Div)) else None
    case Percent => if level == 7 then Some(Arithmetic(Rem)) else None
    case _ => None
  }

  /** The operator of a level at the front, if there is one. */
  function OpAt(level: nat, s: State): Option<Op> {
    if s.rest != [] && s.rest[0].Punct? then OpOf(level, s.rest[0].sym) else None
  }

  function Joined(op: Op, left: Ast, right: Ast): Ast {
    match op
    case Arithmetic(binary) => Binary(binary, left, right)
    case Choice(logical) => Logical(logical, left, right)
  }

  function UnaryAt(s: State): Option<UnaryOp> {
    if At(s, Bang) then Some(Not) else if At(s, Minus) then Some(Neg) else if At(s, Plus) then Some(Pos) else None
  }

  // ----- What every parse keeps -----

  /** A parse counts its nodes, notes its names, closes its brackets and stays within the cap. */
  ghost predicate Keeps(cap: nat, s: State, ast: Ast, r: State) {
    && |r.rest| < |s.rest|
    && r.count == s.count + Size(ast) <= cap
    && r.depth == s.depth
    && r.names == AllNoted(s.names, Identifiers(ast))
  }

  /** The same, once the part `done` is read already. */
  ghost predicate Extends(cap: nat, done: Ast, s: State, ast: Ast, r: State) {
    && |r.rest| <= |s.rest|
    && Size(done) <= Size(ast) && r.count == s.count + Size(ast) - Size(done) && (s.count <= cap ==> r.count <= cap)
    && r.depth == s.depth
    && forall names :: s.names == AllNoted(names, Identifiers(done)) ==> r.names == AllNoted(names, Identifiers(ast))
  }

  function ParseExpr(cap: nat, s: State): (r: Parse)
    ensures r.Parsed? ==> Keeps(cap, s, r.ast, r.state)
    decreases |s.rest|, 12
  {
    match ParseLevel(cap, 1, s)
    case Failed => Failed
    case Parsed(test, s1) =>
      if !At(s1, Query) then Parsed(test, s1)
      else
        match ParseExpr(cap, Next(s1))
        case Failed => Failed
        case Parsed(cons, s2) =>
          if !At(s2, Colon) then Failed
          else
            match ParseExpr(cap, Next(s2))
            case Failed => Failed
            case Parsed(alt, s3) =>
              CondKeeps(cap, s, test, s1, cons, s2, alt, s3);
              Node(cap, Cond(test, cons, alt), s3)
  }

  function ParseLevel(cap: nat, level: nat, s: State): (r: Parse)
    requires 1 <= level <= 8
    ensures r.Parsed? ==> Keeps(cap, s, r.ast, r.state)
    decreases |s.rest|, 11 - level, 1
  {
    if level == 8 then ParseUnary(cap, s)
    else
      match ParseLevel(cap, level + 1, s)
      case Failed => Failed
      case Parsed(left, s1) =>
        var r := ParseMore(cap, level, left, s1);
        if r.Parsed? then
          ExtendsKept(cap, s, left, s1, r.ast, r.state);
          r
        else r
  }

  /** The rest of a left-associative chain. */
  function ParseMore(cap: nat, level: nat, left: Ast, s: State): (r: Parse)
    requires 1 <= level <= 7
    ensures r.Parsed? ==> Extends(cap, left, s, r.ast, r.state)
    decreases |s.rest|, 11 - level, 0
  {
    match OpAt(level, s)
    case None => Parsed(left, s)
    case Some(op) =>
      match ParseLevel(cap, level + 1, Next(s))
      case Failed => Failed
      case Parsed(right, s1) =>
        match Node(cap, Joined(op, left, right), s1)
        case Failed => Failed
        case Parsed(whole, s2) =>
          var r := ParseMore(cap, level, whole, s2);
          if r.Parsed? then
            JoinedExtends(cap, op, left, right, s, s1, r.ast, r.state);
            r
          else r
  }

  function ParseUnary(cap: nat, s: State): (r: Parse)
    ensures r.Parsed? ==> Keeps(cap, s, r.ast, r.state)
    decreases |s.rest|, 3, 0
  {
    match UnaryAt(s)
    case None => ParsePostfix(cap, s)
    case Some(op) =>
      if s.count + 1 > cap then Failed
      else
        match ParseUnary(cap, Next(s).(count := s.count + 1))
        case Failed => Failed
        case Parsed(arg, s1) => Parsed(Unary(op, arg), s1)
  }

  function ParsePostfix(cap: nat, s: State): (r: Parse)
    ensures r.Parsed? ==> Keeps(cap, s, r.ast, r.state)
    decreases |s.rest|, 2, 0
  {
    match ParsePrimary(cap, s)
    case Failed => Failed
    case Parsed(target, s1) =>
      var r := ParseSuffixes(cap, target, s1);
      if r.Parsed? then
        ExtendsKept(cap, s, target, s1, r.ast, r.state);
        r
      else r
  }

  function ParseSuffixes(cap: nat, target: Ast, s: State): (r: Parse)
    ensures r.Parsed? ==> Extends(cap, target, s, r.ast, r.state)
    decreases |s.rest|, 1, 0
  {
    match ParseSuffix(cap, target, s)
    case None => if At(s, OpenParen) then Failed else Parsed(target, s)
    case Some(Failed) => Failed
    case Some(Parsed(longer, s1)) =>
      var r := ParseSuffixes(cap, longer, s1);
      if r.Parsed? then
        ExtendsTwice(cap, target, s, longer, s1, r.ast, r.state);
        r
      else r
  }

  /** One `.name` or `[index]`, if there is one. */
  function ParseSuffix(cap: nat, target: Ast, s: State): (r: Option<Parse>)
    ensures r.Some? && r.value.Parsed? ==>
      Extends(cap, target, s, r.value.ast, r.value.state) && |r.value.state.rest| < |s.rest|
    decreases |s.rest|, 0, 1
  {
    if At(s, Dot) then
      if |s.rest| >= 2 && s.rest[1].Word? then
        Some(Node(cap, Member(target, s.rest[1].name), Next(Next(s))))
      else Some(Failed)
    else if At(s, OpenBracket) then
      if s.depth + 1 > MAX_EXPRESSION_DEPTH then Some(Failed)
      else
        match ParseExpr(cap, Next(s).(depth := s.depth + 1))
        case Failed => Some(Failed)
        case Parsed(index, s1) =>
          if !At(s1, CloseBracket) then Some(Failed)
          else
            IndexExtends(cap, target, index, s, s1);
            Some(Node(cap, Index(target, index), Next(s1).(depth := s.depth)))
    else None
  }

  function ParsePrimary(cap: nat, s: State): (r: Parse)
    ensures r.Parsed? ==> Keeps(cap, s, r.ast, r.state)
    decreases |s.rest|, 1, 1
  {
    if s.rest == [] then Failed
    else
      match s.rest[0]
      case NumTok(number) => Node(cap, Num(number), Next(s))
      case StrTok(text) => Node(cap, Str(text), Next(s))
      case Word(name) => ParseWord(cap, name, Next(s))
      case Punct(OpenParen) =>
        if s.depth + 1 > MAX_EXPRESSION_DEPTH then Failed
        else
          (match ParseExpr(cap, Next(s).(depth := s.depth + 1))
           case Failed => Failed
           case Parsed(inner, s1) =>
             if At(s1, CloseParen) then Parsed(inner, Next(s1).(depth := s.depth)) else Failed)
      case Punct(_) => Failed
  }

  /** A literal, a call or a name, whose word was read. */
  function ParseWord(cap: nat, name: string, s: State): (r: Parse)
    ensures r.Parsed? ==>
      && |r.state.rest| <= |s.rest| && r.state.count == s.count + Size(r.ast) <= cap && r.state.depth == s.depth
      && r.state.names == AllNoted(s.names, Identifiers(r.ast))
    decreases |s.rest|, 13, 0
  {
    if Literal(name) then Node(cap, LiteralOf(name), s)
    else if Reserved(name) then Failed
    else if At(s, OpenParen) then
      if !Callable(name) || s.depth + 1 > MAX_EXPRESSION_DEPTH then Failed
      else
        match ParseCall(cap, Next(s).(depth := s.depth + 1))
        case FailedArgs => Failed
        case ParsedArgs(args, s1) =>
          if At(s1, CloseParen) && ArityFits(name, Count(args)) then Node(cap, Call(name, args),
            Next(s1).(depth := s.depth))
          else Failed
    else
      OneNoted(s.names, name);
      Node(cap, Name(name), s.(names := Noted(s.names, name)))
  }

  /** A call's arguments, up to the closing parenthesis. */
  function ParseCall(cap: nat, s: State): (r: ParseArgs)
    ensures r.ParsedArgs? ==> ArgsKept(cap, s, r.args, r.state)
    decreases |s.rest|, 13, 1
  {
    if At(s, CloseParen) then ParsedArgs(NoArgs, s) else ParseArguments(cap, s)
  }

  function ParseArguments(cap: nat, s: State): (r: ParseArgs)
    ensures r.ParsedArgs? ==> ArgsKept(cap, s, r.args, r.state)
    decreases |s.rest|, 13, 0
  {
    match ParseExpr(cap, s)
    case Failed => FailedArgs
    case Parsed(head, s1) =>
      if !At(s1, Comma) then
        NotedNoMore(s.names, head);
        ParsedArgs(Arg(head, NoArgs), s1)
      else
        match ParseArguments(cap, Next(s1))
        case FailedArgs => FailedArgs
        case ParsedArgs(tail, s2) =>
          NotedInTurn(s.names, Identifiers(head), ArgsIdentifiers(tail));
          ParsedArgs(Arg(head, tail), s2)
  }

  ghost predicate ArgsKept(cap: nat, s: State, args: Args, r: State) {
    && |r.rest| <= |s.rest|
    && r.count == s.count + ArgsSize(args) && (args.Arg? ==> r.count <= cap)
    && r.depth == s.depth
    && r.names == AllNoted(s.names, ArgsIdentifiers(args))
  }

  // ----- The steps of that proof -----

  lemma NotedNoMore(names: seq<string>, head: Ast)
    ensures AllNoted(names, Identifiers(head) + []) == AllNoted(names, Identifiers(head))
  {
    assert Identifiers(head) + [] == Identifiers(head);
  }

  lemma CondKeeps(cap: nat, s: State, test: Ast, s1: State, cons: Ast, s2: State, alt: Ast, s3: State)
    requires Keeps(cap, s, test, s1) && s1.rest != [] && Keeps(cap, Next(s1), cons, s2)
    requires s2.rest != [] && Keeps(cap, Next(s2), alt, s3)
    ensures Node(cap, Cond(test, cons, alt), s3).Parsed? ==>
      Keeps(cap, s, Cond(test, cons, alt), Node(cap, Cond(test, cons, alt), s3).state)
  {
    NotedInTurn(s.names, Identifiers(test), Identifiers(cons));
    NotedInTurn(s.names, Identifiers(test) + Identifiers(cons), Identifiers(alt));
  }

  lemma ExtendsKept(cap: nat, s: State, done: Ast, s1: State, ast: Ast, r: State)
    requires Keeps(cap, s, done, s1) && Extends(cap, done, s1, ast, r)
    ensures Keeps(cap, s, ast, r)
  {
  }

  lemma ExtendsTwice(cap: nat, a: Ast, s: State, b: Ast, s1: State, c: Ast, r: State)
    requires Extends(cap, a, s, b, s1) && Extends(cap, b, s1, c, r)
    ensures Extends(cap, a, s, c, r)
  {
  }

  lemma JoinedExtends(cap: nat, op: Op, left: Ast, right: Ast, s: State, s1: State, ast: Ast, r: State)
    requires s.rest != [] && Keeps(cap, Next(s), right, s1)
    requires s1.count + 1 <= cap && Extends(cap, Joined(op, left, right), s1.(count := s1.count + 1), ast, r)
    ensures Extends(cap, left, s, ast, r)
  {
    forall names | s.names == AllNoted(names, Identifiers(left)) ensures r.names == AllNoted(names, Identifiers(ast)) {
      NotedInTurn(names, Identifiers(left), Identifiers(right));
    }
  }

  lemma IndexExtends(cap: nat, target: Ast, index: Ast, s: State, s1: State)
    requires s.rest != [] && Keeps(cap, Next(s).(depth := s.depth + 1), index, s1) && s1.rest != []
    ensures var r := Node(cap, Index(target, index), Next(s1).(depth := s.depth));
      r.Parsed? ==> Extends(cap, target, s, r.ast, r.state)
  {
    forall names | s.names == AllNoted(names, Identifiers(target))
      ensures s1.names == AllNoted(names, Identifiers(Index(target, index)))
    {
      NotedInTurn(names, Identifiers(target), Identifiers(index));
    }
  }
}
