/**
 The parser as it runs, after `Parser` of crates/xript-expr/src/parser.rs: recursive methods over a
 token cursor. `open` counts the activations open at once and `peak` the most there ever were; every
 method opens one on entry and closes it on every way out.
 */
module ExpressionParser {
  import opened Prelude
  import opened Expressions
  import opened Grammar

  /** Activations from one bracket, unary or conditional down to the next: the grammar's levels. */
  const LEVELS: nat := 12

  /** How many activations a parse may have open at once. */
  function MaxOpen(cap: nat): nat { LEVELS * (cap + MAX_EXPRESSION_DEPTH) + LEVELS }

  class Parser {
    const tokens: seq<Tok>
    const maxNodes: nat
    var index: nat
    var count: nat
    var depth: nat
    var names: seq<string>
    ghost var open: nat
    ghost var peak: nat

    constructor (tokens: seq<Tok>, maxNodes: nat)
      ensures this.tokens == tokens && this.maxNodes == maxNodes && Valid() && Now() == State(tokens, 0, 0, [])
      ensures open == peak == 0
    {
      this.tokens, this.maxNodes := tokens, maxNodes;
      index, count, depth, names := 0, 0, 0, [];
      open, peak := 0, 0;
    }

    ghost predicate Valid()
      reads this
    {
      index <= |tokens|
    }

    ghost function Now(): State
      requires Valid()
      reads this
    {
      State(tokens[index..], count, depth, names)
    }

    /** Brackets and nodes pay for the activations open at a level. */
    ghost predicate Affords(level: nat)
      reads this
    {
      && count <= maxNodes && depth <= MAX_EXPRESSION_DEPTH && open <= LEVELS * (count + depth) + level
      && peak <= MaxOpen(maxNodes)
    }

    /** No activation is left open, and there never were too many. */
    ghost predicate Closed(before: nat)
      reads this
    {
      open == before && peak <= MaxOpen(maxNodes)
    }

    /** One more activation. */
    ghost method Begin(level: nat)
      requires Affords(level) && level < LEVELS
      modifies this`open, this`peak
      ensures open == old(open) + 1 && Affords(level + 1)
    {
      open := open + 1;
      peak := Max(peak, open);
    }

    ghost method End()
      requires open > 0
      modifies this`open
      ensures open == old(open) - 1
    {
      open := open - 1;
    }

    method AtSym(sym: Sym) returns (yes: bool)
      requires Valid()
      ensures yes == At(Now(), sym)
    {
      yes := index < |tokens| && tokens[index] == Punct(sym);
    }

    method Advance()
      requires Valid() && Now().rest != []
      modifies this`index
      ensures Valid() && index == old(index) + 1 && Now() == Next(old(Now()))
    {
      index := index + 1;
      assert tokens[index..] == tokens[index - 1..][1..];
    }

    method Eat(sym: Sym) returns (ate: bool)
      requires Valid()
      modifies this`index
      ensures Valid() && ate == At(old(Now()), sym)
      ensures Now() == if ate then Next(old(Now())) else old(Now())
    {
      ate := AtSym(sym);
      if ate {
        Advance();
      }
    }

    /** Counts a node against the cap. */
    method Reserve() returns (ok: bool)
      requires Valid()
      modifies this`count
      ensures Valid() && ok == (old(count) + 1 <= maxNodes) && Now() == old(Now()).(count := old(count) + 1)
    {
      count := count + 1;
      ok := count <= maxNodes;
    }

    /** Enters one bracketed level. */
    method Enter() returns (ok: bool)
      requires Valid()
      modifies this`depth
      ensures Valid() && ok == (old(depth) + 1 <= MAX_EXPRESSION_DEPTH) && Now() == old(Now()).(depth := old(depth) + 1)
    {
      depth := depth + 1;
      ok := depth <= MAX_EXPRESSION_DEPTH;
    }

    ghost predicate Matches(r: Option<Ast>, p: Parse)
      requires Valid()
      reads this
    {
      if r.None? then p == Failed else p == Parsed(r.value, Now())
    }

    method MakeNode(ast: Ast) returns (r: Option<Ast>)
      requires Valid()
      modifies this`count
      ensures Valid() && Matches(r, Node(maxNodes, ast, old(Now())))
      ensures r.Some? ==> count <= maxNodes
    {
      var ok := Reserve();
      return if ok then Some(ast) else None;
    }

    method ParseExpression() returns (r: Option<Ast>)
      requires Valid() && Affords(0)
      modifies this
      ensures Valid() && Matches(r, ParseExpr(maxNodes, old(Now()))) && Closed(old(open))
      decreases |tokens| - index, 12, 1
    {
      hide ParseExpr, ParseLevel, ParseUnary, ParsePostfix, ParsePrimary;
      Begin(0);
      r := ExpressionBody();
      End();
    }

    method ExpressionBody() returns (r: Option<Ast>)
      requires Valid() && Affords(1)
      modifies this
      ensures Valid() && Matches(r, ParseExpr(maxNodes, old(Now()))) && Closed(old(open))
      decreases |tokens| - index, 12, 0
    {
      hide ParseLevel, ParseExpr, Size, Identifiers, AllNoted;
      ghost var s := Now();
      ExprUnfolds(maxNodes, s);
      var test := ParseBinary(1);
      if test.None? {
        return None;
      }
      var query := Eat(Query);
      if !query {
        return test;
      }
      var cons := ParseExpression();
      if cons.None? {
        return None;
      }
      var colon := Eat(Colon);
      if !colon {
        return None;
      }
      var alt := ParseExpression();
      if alt.None? {
        return None;
      }
      r := MakeNode(Cond(test.value, cons.value, alt.value));
    }

    /** The binary levels, and below them the unary one. */
    method ParseBinary(level: nat) returns (r: Option<Ast>)
      requires Valid() && 1 <= level <= 8 && Affords(level)
      modifies this
      ensures Valid() && Matches(r, ParseLevel(maxNodes, level, old(Now()))) && Closed(old(open))
      decreases |tokens| - index, 11 - level, 5
    {
      hide ParseExpr, ParseLevel, ParseUnary, ParsePostfix, ParsePrimary;
      Begin(level);
      r := BinaryBody(level);
      End();
    }

    method BinaryBody(level: nat) returns (r: Option<Ast>)
      requires Valid() && 1 <= level <= 8 && Affords(level + 1)
      modifies this
      ensures Valid() && Matches(r, ParseLevel(maxNodes, level, old(Now()))) && Closed(old(open))
      decreases |tokens| - index, 11 - level, 4
    {
      hide ParseExpr, Size, Identifiers, AllNoted, ParseUnary, ParseMore;
      if level == 8 {
        r := ParseUnaryOperator();
        return;
      }
      r := ParseBinary(level + 1);
      if r.Some? {
        r := ParseChain(level, r.value);
      }
    }

    /** The loop of a left-associative level. */
    method ParseChain(level: nat, first: Ast) returns (r: Option<Ast>)
      requires Valid() && 1 <= level <= 7 && Affords(level + 1)
      modifies this
      ensures Valid() && Matches(r, ParseMore(maxNodes, level, first, old(Now()))) && Closed(old(open))
      decreases |tokens| - index, 11 - level, 3
    {
      hide ParseExpr, Size, Identifiers, AllNoted, ParseLevel, OpOf, Extends;
      var left := first;
      ghost var s1 := Now();
      while true
        invariant Valid() && |Now().rest| <= |s1.rest| && depth == s1.depth && s1.count <= count <= maxNodes
        invariant Closed(old(open))
        invariant ParseMore(maxNodes, level, left, Now()) == ParseMore(maxNodes, level, first, s1)
        decreases |tokens| - index
      {
        var op := PeekOp(level);
        if op.None? {
          return Some(left);
        }
        Advance();
        var right := ParseBinary(level + 1);
        if right.None? {
          return None;
        }
        var whole := MakeNode(Joined(op.value, left, right.value));
        if whole.None? {
          return None;
        }
        left := whole.value;
      }
    }

    method PeekOp(level: nat) returns (op: Option<Op>)
      requires Valid()
      ensures op == OpAt(level, Now())
    {
      op := if index < |tokens| && tokens[index].Punct? then OpOf(level, tokens[index].sym) else None;
    }

    method ParseUnaryOperator() returns (r: Option<Ast>)
      requires Valid() && Affords(9)
      modifies this
      ensures Valid() && Matches(r, ParseUnary(maxNodes, old(Now()))) && Closed(old(open))
      decreases |tokens| - index, 3, 2
    {
      hide ParseExpr, ParseLevel, ParseUnary, ParsePostfix, ParsePrimary;
      Begin(9);
      r := UnaryBody();
      End();
    }

    method UnaryBody() returns (r: Option<Ast>)
      requires Valid() && Affords(10)
      modifies this
      ensures Valid() && Matches(r, ParseUnary(maxNodes, old(Now()))) && Closed(old(open))
      decreases |tokens| - index, 3, 1
    {
      hide ParseExpr, Size, Identifiers, AllNoted, ParsePostfix;
      var bang := AtSym(Bang);
      var minus := AtSym(Minus);
      var plus := AtSym(Plus);
      if !bang && !minus && !plus {
        r := ParsePostfixes();
        return;
      }
      Advance();
      var ok := Reserve();
      if !ok {
        return None;
      }
      var arg := ParseUnaryOperator();
      if arg.None? {
        return None;
      }
      return Some(Unary(if bang then Not else if minus then Neg else Pos, arg.value));
    }

    method ParsePostfixes() returns (r: Option<Ast>)
      requires Valid() && Affords(10)
      modifies this
      ensures Valid() && Matches(r, ParsePostfix(maxNodes, old(Now()))) && Closed(old(open))
      decreases |tokens| - index, 2, 1
    {
      hide ParseExpr, ParseLevel, ParseUnary, ParsePostfix, ParsePrimary;
      Begin(10);
      r := PostfixBody();
      End();
    }

    method PostfixBody() returns (r: Option<Ast>)
      requires Valid() && Affords(11)
      modifies this
      ensures Valid() && Matches(r, ParsePostfix(maxNodes, old(Now()))) && Closed(old(open))
      decreases |tokens| - index, 2, 0
    {
      hide ParseExpr, Size, Identifiers, AllNoted, ParsePrimary, ParseSuffix;
      r := ParsePrimaryOne();
      if r.None? {
        return;
      }
      var target := r.value;
      ghost var first, s1 := target, Now();
      while true
        invariant Valid() && |Now().rest| <= |s1.rest| && depth == s1.depth && s1.count <= count <= maxNodes
        invariant Closed(old(open))
        invariant ParseSuffixes(maxNodes, target, Now()) == ParseSuffixes(maxNodes, first, s1)
        decreases |tokens| - index
      {
        var dot := AtSym(Dot);
        var bracket := AtSym(OpenBracket);
        if !dot && !bracket {
          NoSuffix(maxNodes, target, Now());
          var call := AtSym(OpenParen);
          return if call then None else Some(target);
        }
        var longer := ParseOneSuffix(target, dot);
        if longer.None? {
          return None;
        }
        target := longer.value;
      }
    }

    /** One `.name` or `[index]`. */
    method ParseOneSuffix(target: Ast, dot: bool) returns (r: Option<Ast>)
      requires Valid() && Affords(11)
      requires dot == At(Now(), Dot) && (!dot ==> At(Now(), OpenBracket))
      modifies this
      ensures Valid() && ParseSuffix(maxNodes, target, old(Now())).Some? && Closed(old(open))
      ensures Matches(r, ParseSuffix(maxNodes, target, old(Now())).value)
      ensures r.Some? ==> count <= maxNodes
      decreases |tokens| - index, 1, 2
    {
      hide ParseExpr, Size, Identifiers, AllNoted, ParseSuffix, Bracketed, Extends, Keeps;
      SuffixUnfolds(maxNodes, target, Now());
      if dot {
        Advance();
        if index == |tokens| || !tokens[index].Word? {
          return None;
        }
        var name := tokens[index].name;
        Advance();
        r := MakeNode(Member(target, name));
        return;
      }
      var inner := ParseBracketed(CloseBracket);
      if inner.None? {
        return None;
      }
      r := MakeNode(Index(target, inner.value));
    }

    /** An expression in brackets, from the opening one to the closing one. */
    method ParseBracketed(closer: Sym) returns (r: Option<Ast>)
      requires Valid() && Now().rest != [] && Affords(12)
      modifies this
      ensures Valid() && Matches(r, Bracketed(maxNodes, old(Now()), closer)) && Closed(old(open))
      decreases |tokens| - index, 1, 1
    {
      hide ParseExpr, Size, Identifiers, AllNoted;
      Advance();
      var ok := Enter();
      if !ok {
        return None;
      }
      r := ParseExpression();
      if r.None? {
        return;
      }
      depth := depth - 1;
      var closed := Eat(closer);
      if !closed {
        r := None;
      }
    }

    method ParsePrimaryOne() returns (r: Option<Ast>)
      requires Valid() && Affords(11)
      modifies this
      ensures Valid() && Matches(r, ParsePrimary(maxNodes, old(Now()))) && Closed(old(open))
      decreases |tokens| - index, 1, 4
    {
      hide ParseExpr, ParseLevel, ParseUnary, ParsePostfix, ParsePrimary;
      Begin(11);
      r := PrimaryBody();
      End();
    }

    method PrimaryBody() returns (r: Option<Ast>)
      requires Valid() && Affords(12)
      modifies this
      ensures Valid() && Matches(r, ParsePrimary(maxNodes, old(Now()))) && Closed(old(open))
      decreases |tokens| - index, 1, 3
    {
      hide ParseExpr, Size, Identifiers, AllNoted, ParseWord;
      if index == |tokens| {
        return None;
      }
      var token := tokens[index];
      match token
      case NumTok(number) =>
        Advance();
        r := MakeNode(Num(number));
      case StrTok(text) =>
        Advance();
        r := MakeNode(Str(text));
      case Word(name) =>
        Advance();
        r := ParseNamed(name);
      case Punct(sym) =>
        if sym != OpenParen {
          return None;
        }
        r := ParseBracketed(CloseParen);
    }

    /** A literal, a call or a name, whose word was read. */
    method ParseNamed(name: string) returns (r: Option<Ast>)
      requires Valid() && Affords(12)
      modifies this
      ensures Valid() && Matches(r, ParseWord(maxNodes, name, old(Now()))) && Closed(old(open))
      decreases |tokens| - index, 13, 2
    {
      hide ParseExpr, Size, Identifiers, AllNoted, ParseCall, Literal, Reserved, BuiltinArity, ArityFits, ArgsSize,
        ArgsIdentifiers;
      if Literal(name) {
        r := MakeNode(LiteralOf(name));
        return;
      }
      if Reserved(name) {
        return None;
      }
      var call := AtSym(OpenParen);
      if call {
        if !Callable(name) {
          return None;
        }
        Advance();
        var ok := Enter();
        if !ok {
          return None;
        }
        var args := ParseCallArguments();
        if args.None? {
          return None;
        }
        depth := depth - 1;
        var closed := Eat(CloseParen);
        if !closed || !ArityFits(name, Count(args.value)) {
          return None;
        }
        r := MakeNode(Call(name, args.value));
        return;
      }
      if name !in names {
        names := names + [name];
      }
      r := MakeNode(Name(name));
    }

    ghost predicate MatchesArgs(r: Option<Args>, p: ParseArgs)
      requires Valid()
      reads this
    {
      if r.None? then p == FailedArgs else p == ParsedArgs(r.value, Now())
    }

    /** A call's arguments, up to the closing parenthesis. */
    method ParseCallArguments() returns (r: Option<Args>)
      requires Valid() && Affords(0)
      modifies this
      ensures Valid() && MatchesArgs(r, ParseCall(maxNodes, old(Now()))) && Closed(old(open))
      decreases |tokens| - index, 13, 1
    {
      hide ParseExpr, Size, Identifiers, AllNoted;
      var none := AtSym(CloseParen);
      if none {
        return Some(NoArgs);
      }
      r := ParseArgumentList();
    }

    method ParseArgumentList() returns (r: Option<Args>)
      requires Valid() && Affords(0)
      modifies this
      ensures Valid() && MatchesArgs(r, ParseArguments(maxNodes, old(Now()))) && Closed(old(open))
      decreases |tokens| - index, 13, 0
    {
      hide ParseExpr, Size, Identifiers, AllNoted, ArgsSize, ArgsIdentifiers;
      var heads: seq<Ast> := [];
      ghost var start := Now();
      while true
        invariant Valid() && |Now().rest| <= |start.rest| && depth == start.depth && start.count <= count <= maxNodes
        invariant Closed(old(open))
        invariant Prepended(heads, ParseArguments(maxNodes, Now())) == ParseArguments(maxNodes, start)
        decreases |tokens| - index
      {
        ghost var here := Now();
        var head := ParseExpression();
        if head.None? {
          return None;
        }
        var comma := Eat(Comma);
        if !comma {
          return Some(ListOf(heads, Arg(head.value, NoArgs)));
        }
        MorePrepended(heads, maxNodes, here, head.value, Now());
        heads := heads + [head.value];
      }
    }
  }

  lemma ExprUnfolds(cap: nat, s: State)
    ensures ParseExpr(cap, s) ==
      match ParseLevel(cap, 1, s)
      case Failed => Failed
      case Parsed(test, s1) =>
        if !At(s1, Query) then Parsed(test, s1)
        else
          match ParseExpr(cap, Next(s1))
          case Failed => Failed
          case Parsed(cons, s2) =>
            if !At(s2, Colon) then Failed
            else
              match ParseExpr(cap, Next(s2))
              case Failed => Failed
              case Parsed(alt, s3) => Node(cap, Cond(test, cons, alt), s3)
  {
  }

  /** What the grammar reads between an opening bracket and `closer`. */
  ghost function Bracketed(cap: nat, s: State, closer: Sym): Parse
    requires s.rest != []
  {
    if s.depth + 1 > MAX_EXPRESSION_DEPTH then Failed
    else
      match ParseExpr(cap, Next(s).(depth := s.depth + 1))
      case Failed => Failed
      case Parsed(inner, s1) => if At(s1, closer) then Parsed(inner, Next(s1).(depth := s.depth)) else Failed
  }

  /** What the grammar makes of a `.` or `[` behind a target. */
  ghost function Suffixed(cap: nat, target: Ast, s: State): Parse
    requires s.rest != []
  {
    if At(s, Dot) then
      if |s.rest| >= 2 && s.rest[1].Word? then Node(cap, Member(target, s.rest[1].name), Next(Next(s))) else Failed
    else
      match Bracketed(cap, s, CloseBracket)
      case Failed => Failed
      case Parsed(inner, s1) => Node(cap, Index(target, inner), s1)
  }

  lemma SuffixUnfolds(cap: nat, target: Ast, s: State)
    requires At(s, Dot) || At(s, OpenBracket)
    ensures ParseSuffix(cap, target, s) == Some(Suffixed(cap, target, s))
  {
    hide ParseExpr, Size, Identifiers, AllNoted, Extends, Keeps;
  }

  lemma NoSuffix(cap: nat, target: Ast, s: State)
    requires !At(s, Dot) && !At(s, OpenBracket)
    ensures ParseSuffix(cap, target, s) == None
  {
  }

  /** The arguments read one by one, with the rest behind them. */
  function ListOf(heads: seq<Ast>, rest: Args): Args {
    if heads == [] then rest else Arg(heads[0], ListOf(heads[1..], rest))
  }

  ghost function Prepended(heads: seq<Ast>, p: ParseArgs): ParseArgs {
    if p.FailedArgs? then FailedArgs else ParsedArgs(ListOf(heads, p.args), p.state)
  }

  lemma MorePrepended(heads: seq<Ast>, cap: nat, s: State, head: Ast, s2: State)
    requires ParseExpr(cap, s).Parsed? && ParseExpr(cap, s).ast == head && At(ParseExpr(cap, s).state, Comma)
    requires s2 == Next(ParseExpr(cap, s).state)
    ensures Prepended(heads + [head], ParseArguments(cap, s2)) == Prepended(heads, ParseArguments(cap, s))
  {
    hide ParseExpr, ListOf;
    var p := ParseArguments(cap, s2);
    if p.ParsedArgs? {
      ListOfMore(heads, head, p.args);
    }
  }

  lemma {:induction false} ListOfMore(heads: seq<Ast>, head: Ast, rest: Args)
    ensures ListOf(heads + [head], rest) == ListOf(heads, Arg(head, rest))
    decreases |heads|
  {
    if heads != [] {
      assert (heads + [head])[1..] == heads[1..] + [head];
      ListOfMore(heads[1..], head, rest);
    } else {
      assert [head][1..] == [];
    }
  }

  /** A parsed expression and what static reading knows about it; only a bare name can be written back. */
  datatype Expression = Expression(ast: Ast, bareName: bool, names: seq<string>, nodeCount: nat)

  /** What the grammar makes of a whole token list. */
  function Read(tokens: seq<Tok>, maxNodes: nat): Option<Ast> {
    match ParseExpr(maxNodes, State(tokens, 0, 0, []))
    case Failed => None
    case Parsed(ast, s) => if s.rest == [] then Some(ast) else None
  }

  /** Parses a whole token list; `peak` is the most activations that were open at once. */
  method ParseWithLimit(tokens: seq<Tok>, maxNodes: nat) returns (r: Option<Expression>, ghost peak: nat)
    ensures peak <= MaxOpen(maxNodes)
    ensures r.Some? <==> Read(tokens, maxNodes).Some?
    ensures r.Some? ==>
      && Read(tokens, maxNodes) == Some(r.value.ast)
      && r.value.nodeCount == Size(r.value.ast) <= maxNodes
      && r.value.names == AllNoted([], Identifiers(r.value.ast))
      && (r.value.bareName <==> r.value.ast.Name?)
  {
    hide ParseExpr, Size, Identifiers, AllNoted;
    var parser := new Parser(tokens, maxNodes);
    var ast := parser.ParseExpression();
    peak := parser.peak;
    if ast.None? || parser.index < |tokens| {
      r := None;
      return;
    }
    r := Some(Expression(ast.value, ast.value.Name?, parser.names, parser.count));
  }

  /** The names of an expression are its identifiers, each once, in the order they first appear. */
  lemma NamesAreTheIdentifiers(ast: Ast)
    ensures var names := AllNoted([], Identifiers(ast));
      && Distinct(names) && (forall x :: x in names <==> x in Identifiers(ast))
      && forall x, y :: x != y && x in names && y in names ==> (Before(names, x, y) <==> Before(Identifiers(ast), x, y))
  {
    hide Identifiers, AllNoted, Before;
    NotedAreTheIdentifiers([], Identifiers(ast));
    forall x, y | x != y && x in AllNoted([], Identifiers(ast)) && y in AllNoted([], Identifiers(ast))
      ensures Before(AllNoted([], Identifiers(ast)), x, y) <==> Before(Identifiers(ast), x, y)
    {
      NotedInOrder(Identifiers(ast), x, y);
    }
  }
}
