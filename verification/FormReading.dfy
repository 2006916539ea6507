/**
 Every grammatical form is read as what it means by the grammar of crates/xript-expr/src/parser.rs: the
 parser is complete for the precedence that `Forms` states.
 */
module FormReading {
  import opened Prelude
  import opened Expressions
  import opened Grammar
  import opened ExpressionParser
  import opened Forms

  // ----- What may follow -----

  /** No operator of the level or a tighter one comes next, and no suffix. */
  ghost predicate Stops(level: nat, s: State) {
    && !At(s, Dot) && !At(s, OpenBracket) && !At(s, OpenParen)
    && forall k: nat :: level <= k ==> OpAt(k, s).None?
  }

  /** Nothing that could continue an expression comes next. */
  ghost predicate Ends(s: State) { Stops(1, s) && !At(s, Query) }

  /** Where a parse stands once the form is read and `more` is left. */
  ghost function After(s: State, t: Form, more: seq<Tok>): State {
    State(more, s.count + Size(Meaning(t)), s.depth, AllNoted(s.names, Identifiers(Meaning(t))))
  }

  /** The form comes next, and the caps leave room for it. */
  ghost predicate Ready(cap: nat, s: State, t: Form, more: seq<Tok>) {
    && s.rest == Tokens(t) + more && Grammatical(t)
    && s.count + Size(Meaning(t)) <= cap && s.depth + Nesting(t) <= MAX_EXPRESSION_DEPTH
  }

  /** A symbol in front: what it is, and what is behind it. */
  lemma InFront(s: State, tok: Tok, more: seq<Tok>)
    requires s.rest == [tok] + more
    ensures s.rest != [] && s.rest[0] == tok && Next(s) == s.(rest := more)
  {
    assert s.rest[1..] == more;
  }

  /** A bracket, comma or colon continues no operand. */
  lemma ClosersStop(s: State, sym: Sym)
    requires At(s, sym) && sym in {CloseParen, CloseBracket, Comma, Colon, Query}
    ensures Stops(1, s) && (sym != Query ==> Ends(s))
  {
  }

  /** What may follow depends on the tokens only. */
  lemma EndsAnywhere(s: State, r: State)
    requires s.rest == r.rest
    ensures Ends(s) <==> Ends(r)
    ensures forall k: nat :: Stops(k, s) <==> Stops(k, r)
  {
    hide OpOf;
    assert forall j: nat :: OpAt(j, s) == OpAt(j, r);
  }

  lemma StopsTighter(level: nat, tighter: nat, s: State)
    requires level <= tighter && Stops(level, s)
    ensures Stops(tighter, s)
  {
  }

  /** An operator is one of its own rank, and of no other. */
  lemma OpHasItsRank(op: Op, s: State)
    requires At(s, OpSym(op))
    ensures Stops(Rank(op) + 1, s) && OpAt(Rank(op), s) == Some(op)
  {
  }

  // ----- The parser, one step at a time -----

  lemma LevelUnfolds(cap: nat, level: nat, s: State, left: Ast, s1: State)
    requires 1 <= level <= 7 && ParseLevel(cap, level + 1, s) == Parsed(left, s1)
    ensures ParseLevel(cap, level, s) == ParseMore(cap, level, left, s1)
  {
    hide ParseUnary, ParseMore, Keeps, Extends;
  }

  lemma MoreStops(cap: nat, level: nat, left: Ast, s: State)
    requires 1 <= level <= 7 && OpAt(level, s).None?
    ensures ParseMore(cap, level, left, s) == Parsed(left, s)
  {
    hide ParseLevel, Keeps, Extends;
  }

  lemma MoreJoins(cap: nat, level: nat, left: Ast, s: State, op: Op, right: Ast, s1: State)
    requires 1 <= level <= 7 && OpAt(level, s) == Some(op) && s.rest != []
    requires ParseLevel(cap, level + 1, Next(s)) == Parsed(right, s1) && s1.count + 1 <= cap
    ensures ParseMore(cap, level, left, s)
         == ParseMore(cap, level, Joined(op, left, right), s1.(count := s1.count + 1))
  {
    hide ParseLevel, Keeps, Extends, Joined;
  }

  lemma SuffixesStop(cap: nat, target: Ast, s: State)
    requires Stops(8, s)
    ensures ParseSuffixes(cap, target, s) == Parsed(target, s)
  {
    hide ParseSuffix, Extends, OpAt;
    NoSuffix(cap, target, s);
  }

  lemma SuffixesGoOn(cap: nat, target: Ast, s: State, longer: Ast, s1: State)
    requires ParseSuffix(cap, target, s) == Some(Parsed(longer, s1))
    ensures ParseSuffixes(cap, target, s) == ParseSuffixes(cap, longer, s1)
  {
    hide ParseSuffix, Extends;
  }

  lemma PostfixUnfolds(cap: nat, s: State, target: Ast, s1: State)
    requires ParsePrimary(cap, s) == Parsed(target, s1)
    ensures ParsePostfix(cap, s) == ParseSuffixes(cap, target, s1)
  {
    hide ParsePrimary, ParseSuffixes, Keeps, Extends;
  }

  lemma GroupRead(cap: nat, s: State, a: Ast, s1: State)
    requires At(s, OpenParen) && s.depth + 1 <= MAX_EXPRESSION_DEPTH
    requires ParseExpr(cap, Next(s).(depth := s.depth + 1)) == Parsed(a, s1) && At(s1, CloseParen)
    ensures ParsePrimary(cap, s) == Parsed(a, Next(s1).(depth := s.depth))
  {
    hide ParseExpr;
  }

  lemma BracketRead(cap: nat, target: Ast, s: State, index: Ast, s1: State)
    requires At(s, OpenBracket) && s.depth + 1 <= MAX_EXPRESSION_DEPTH
    requires ParseExpr(cap, Next(s).(depth := s.depth + 1)) == Parsed(index, s1) && At(s1, CloseBracket)
    ensures ParseSuffix(cap, target, s) == Some(Node(cap, Index(target, index), Next(s1).(depth := s.depth)))
  {
    hide ParseExpr;
  }

  // ----- Reading a form -----

  /** At the level of a chain: the form is read, and the chain goes on behind it. */
  lemma {:induction false} ReadsChain(cap: nat, level: nat, s: State, t: Form, more: seq<Tok>)
    requires 1 <= level <= 7 && Tightness(t) >= level && Ready(cap, s, t, more) && Stops(level + 1, s.(rest := more))
    ensures ParseLevel(cap, level, s) == ParseMore(cap, level, Meaning(t), After(s, t, more))
    decreases t, 19 - 2 * level
  {
    hide ParseLevel, ParseMore, Ready, Stops, Meaning, After;
    if Tightness(t) == level {
      ReadsInfix(cap, s, t, more);
    } else {
      ReadsLevel(cap, level + 1, s, t, more);
      LevelUnfolds(cap, level, s, Meaning(t), After(s, t, more));
    }
  }

  lemma InfixParts(t: Form)
    requires t.Infix?
    ensures Tokens(t) == Tokens(t.left) + [Punct(OpSym(t.op))] + Tokens(t.right)
    ensures Nesting(t) == Max(Nesting(t.left), Nesting(t.right))
    ensures Meaning(t) == Joined(t.op, Meaning(t.left), Meaning(t.right))
    ensures Size(Meaning(t)) == 1 + Size(Meaning(t.left)) + Size(Meaning(t.right))
    ensures Identifiers(Meaning(t)) == Identifiers(Meaning(t.left)) + Identifiers(Meaning(t.right))
    ensures Tightness(t) == Rank(t.op)
    ensures Grammatical(t) <==>
      Grammatical(t.left) && Tightness(t.left) >= Rank(t.op) && Grammatical(t.right) && Tightness(t.right) > Rank(t.op)
  {
    hide OpSym, Rank;
  }

  /** An operator of the level: its left operand goes on the chain, its right one binds tighter. */
  lemma {:induction false} ReadsInfix(cap: nat, s: State, t: Form, more: seq<Tok>)
    requires t.Infix? && Ready(cap, s, t, more) && Stops(Rank(t.op) + 1, s.(rest := more))
    ensures ParseLevel(cap, Rank(t.op), s) == ParseMore(cap, Rank(t.op), Meaning(t), After(s, t, more))
    decreases t, 4
  {
    hide ParseLevel, ParseMore, Stops, Rank, OpSym, OpOf, OpAt, Tightness, AllNoted, Tokens, Meaning, Size, Identifiers,
      Nesting, Grammatical, Joined;
    InfixParts(t);
    var level, sym := Rank(t.op), Punct(OpSym(t.op));
    Regrouped(Tokens(t.left) + [sym], Tokens(t.right), more);
    Regrouped(Tokens(t.left), [sym], Tokens(t.right) + more);
    var s1 := After(s, t.left, [sym] + (Tokens(t.right) + more));
    InFront(s1, sym, Tokens(t.right) + more);
    OpHasItsRank(t.op, s1);
    EndsAnywhere(s1, s.(rest := s1.rest));
    ReadsChain(cap, level, s, t.left, s1.rest);
    EndsAnywhere(s.(rest := more), Next(s1).(rest := more));
    ReadsLevel(cap, level + 1, Next(s1), t.right, more);
    MoreJoins(cap, level, Meaning(t.left), s1, t.op, Meaning(t.right), After(Next(s1), t.right, more));
    NotedInTurn(s.names, Identifiers(Meaning(t.left)), Identifiers(Meaning(t.right)));
  }

  /** A form that binds tightly enough is all a level reads, if nothing continues it. */
  lemma {:induction false} ReadsLevel(cap: nat, level: nat, s: State, t: Form, more: seq<Tok>)
    requires 1 <= level <= 8 && Tightness(t) >= level && Ready(cap, s, t, more) && Stops(level, s.(rest := more))
    ensures ParseLevel(cap, level, s) == Parsed(Meaning(t), After(s, t, more))
    decreases t, 20 - 2 * level
  {
    hide ParseUnary, ParseMore, Ready, OpAt, Meaning, Tightness;
    if level == 8 {
      ReadsUnary(cap, s, t, more);
    } else {
      StopsTighter(level, level + 1, s.(rest := more));
      EndsAnywhere(s.(rest := more), After(s, t, more));
      ReadsChain(cap, level, s, t, more);
      MoreStops(cap, level, Meaning(t), After(s, t, more));
    }
  }

  lemma {:induction false} ReadsUnary(cap: nat, s: State, t: Form, more: seq<Tok>)
    requires Tightness(t) >= 8 && Ready(cap, s, t, more) && Stops(8, s.(rest := more))
    ensures ParseUnary(cap, s) == Parsed(Meaning(t), After(s, t, more))
    decreases t, 3
  {
    hide ParsePostfix, Stops, AllNoted, Tightness, Identifiers;
    if t.Prefixed? {
      var sym := Punct(UnarySym(t.unary));
      Regrouped([sym], Tokens(t.arg), more);
      InFront(s, sym, Tokens(t.arg) + more);
      var inner := Next(s).(count := s.count + 1);
      EndsAnywhere(s.(rest := more), inner.(rest := more));
      ReadsUnary(cap, inner, t.arg, more);
      PrefixedIs(t);
    } else {
      NotUnary(s, t, more);
      SuffixMayFollow(s.(rest := more));
      TighterThanUnary(t);
      ReadsPostfix(cap, s, t, more);
      EndsAnywhere(s.(rest := more), After(s, t, more));
      SuffixesStop(cap, Meaning(t), After(s, t, more));
    }
  }

  lemma PrefixedIs(t: Form)
    requires t.Prefixed?
    ensures Identifiers(Meaning(t)) == Identifiers(Meaning(t.arg))
  {
  }

  lemma SuffixMayFollow(s: State)
    requires Stops(8, s)
    ensures !At(s, OpenParen)
  {
  }

  lemma TighterThanUnary(t: Form)
    requires Tightness(t) >= 8 && !t.Prefixed?
    ensures Tightness(t) >= 9
  {
  }

  /** A form that binds tighter than a unary operator does not start like one. */
  lemma NotUnary(s: State, t: Form, more: seq<Tok>)
    requires Tightness(t) >= 8 && !t.Prefixed? && Grammatical(t) && s.rest == Tokens(t) + more
    ensures UnaryAt(s).None?
  {
    StartsPlainly(t);
    assert s.rest[0] == Tokens(t)[0];
  }

  lemma {:induction false} StartsPlainly(t: Form)
    requires Grammatical(t) && Tightness(t) >= 9
    ensures Tokens(t)[0] !in {Punct(Bang), Punct(Minus), Punct(Plus)}
  {
    hide Reserved, Callable, ArityFits, Literal;
    if t.Dotted? || t.Indexed? {
      StartsPlainly(t.obj);
    }
  }

  /** A form with its suffixes: read, and more suffixes may follow. */
  lemma {:induction false} ReadsPostfix(cap: nat, s: State, t: Form, more: seq<Tok>)
    requires Tightness(t) >= 9 && Ready(cap, s, t, more) && !At(s.(rest := more), OpenParen)
    ensures ParsePostfix(cap, s) == ParseSuffixes(cap, Meaning(t), After(s, t, more))
    decreases t, 2
  {
    hide ParsePostfix, ParseSuffixes, ParsePrimary, Ready, Meaning, After;
    if t.Dotted? {
      ReadsDotted(cap, s, t, more);
    } else if t.Indexed? {
      ReadsIndexed(cap, s, t, more);
    } else {
      ReadsPrimary(cap, s, t, more);
      PostfixUnfolds(cap, s, Meaning(t), After(s, t, more));
    }
  }

  lemma DottedParts(t: Form)
    requires t.Dotted?
    ensures Tokens(t) == Tokens(t.obj) + [Punct(Dot)] + [Word(t.member)] && Nesting(t) == Nesting(t.obj)
    ensures Meaning(t) == Member(Meaning(t.obj), t.member) && Size(Meaning(t)) == 1 + Size(Meaning(t.obj))
    ensures Identifiers(Meaning(t)) == Identifiers(Meaning(t.obj))
    ensures Grammatical(t) ==> Grammatical(t.obj) && Tightness(t.obj) >= 9
  {
  }

  lemma IndexedParts(t: Form)
    requires t.Indexed?
    ensures Tokens(t) == Tokens(t.obj) + [Punct(OpenBracket)] + Tokens(t.index) + [Punct(CloseBracket)]
    ensures Nesting(t) == Max(Nesting(t.obj), 1 + Nesting(t.index))
    ensures Meaning(t) == Index(Meaning(t.obj), Meaning(t.index))
    ensures Size(Meaning(t)) == 1 + Size(Meaning(t.obj)) + Size(Meaning(t.index))
    ensures Identifiers(Meaning(t)) == Identifiers(Meaning(t.obj)) + Identifiers(Meaning(t.index))
    ensures Grammatical(t) <==> Grammatical(t.obj) && Tightness(t.obj) >= 9 && Grammatical(t.index)
  {
  }

  lemma {:induction false} ReadsDotted(cap: nat, s: State, t: Form, more: seq<Tok>)
    requires t.Dotted? && Ready(cap, s, t, more)
    ensures ParsePostfix(cap, s) == ParseSuffixes(cap, Meaning(t), After(s, t, more))
    decreases t, 0
  {
    hide ParsePostfix, ParseSuffixes, AllNoted, Tightness, Tokens, Meaning, Size, Identifiers, Nesting, Grammatical;
    DottedParts(t);
    var dot, word := Punct(Dot), Word(t.member);
    Regrouped(Tokens(t.obj) + [dot], [word], more);
    Regrouped(Tokens(t.obj), [dot], [word] + more);
    var s1 := After(s, t.obj, [dot] + ([word] + more));
    InFront(s1, dot, [word] + more);
    InFront(Next(s1), word, more);
    ReadsPostfix(cap, s, t.obj, s1.rest);
    SuffixUnfolds(cap, Meaning(t.obj), s1);
    SuffixesGoOn(cap, Meaning(t.obj), s1, Meaning(t), After(s, t, more));
  }

  lemma {:induction false} ReadsIndexed(cap: nat, s: State, t: Form, more: seq<Tok>)
    requires t.Indexed? && Ready(cap, s, t, more)
    ensures ParsePostfix(cap, s) == ParseSuffixes(cap, Meaning(t), After(s, t, more))
    decreases t, 0
  {
    hide ParsePostfix, ParseSuffixes, ParseExpr, ParseSuffix, AllNoted, Tightness, Ends, Tokens, Meaning, Size,
      Identifiers, Nesting, Grammatical;
    IndexedParts(t);
    var open, close := Punct(OpenBracket), Punct(CloseBracket);
    FiveRegrouped(Tokens(t.obj), [open], Tokens(t.index), [close], more);
    var s1 := After(s, t.obj, [open] + (Tokens(t.index) + ([close] + more)));
    InFront(s1, open, Tokens(t.index) + ([close] + more));
    ReadsPostfix(cap, s, t.obj, s1.rest);
    ReadsBracket(cap, s1, Meaning(t.obj), t.index, more);
    NotedInTurn(s.names, Identifiers(Meaning(t.obj)), Identifiers(Meaning(t.index)));
    SuffixesGoOn(cap, Meaning(t.obj), s1, Meaning(t), After(s, t, more));
  }

  /** An index in its brackets, behind a target that was read. */
  lemma {:induction false} ReadsBracket(cap: nat, s: State, target: Ast, index: Form, more: seq<Tok>)
    requires s.rest == [Punct(OpenBracket)] + (Tokens(index) + ([Punct(CloseBracket)] + more)) && Grammatical(index)
    requires s.count + Size(Meaning(index)) + 1 <= cap && s.depth + 1 + Nesting(index) <= MAX_EXPRESSION_DEPTH
    ensures ParseSuffix(cap, target, s)
         == Some(Parsed(Index(target, Meaning(index)),
                        After(s, index, more).(count := s.count + Size(Meaning(index)) + 1)))
    decreases index, 21
  {
    hide ParseExpr, ParseSuffix, AllNoted, Ends, Tokens, Meaning, Size, Identifiers, Nesting, Grammatical, OpAt, Stops;
    var close := Punct(CloseBracket);
    var tail := [close] + more;
    InFront(s, Punct(OpenBracket), Tokens(index) + tail);
    var inner := Next(s).(depth := s.depth + 1);
    InFront(inner.(rest := tail), close, more);
    ClosersStop(inner.(rest := tail), CloseBracket);
    ReadsForm(cap, inner, index, tail);
    InFront(After(inner, index, tail), close, more);
    BracketRead(cap, target, s, Meaning(index), After(inner, index, tail));
  }

  lemma FiveRegrouped(a: seq<Tok>, b: seq<Tok>, c: seq<Tok>, d: seq<Tok>, e: seq<Tok>)
    ensures a + b + c + d + e == a + (b + (c + (d + e)))
  {
    Regrouped(a + b + c, d, e);
    Regrouped(a + b, c, d + e);
    Regrouped(a, b, c + (d + e));
  }

  lemma {:induction false} ReadsPrimary(cap: nat, s: State, t: Form, more: seq<Tok>)
    requires Tightness(t) == 10 && Ready(cap, s, t, more) && !At(s.(rest := more), OpenParen)
    ensures ParsePrimary(cap, s) == Parsed(Meaning(t), After(s, t, more))
    decreases t, 1
  {
    hide ParsePrimary, Ready, Meaning, After;
    if t.Leaf? {
      ReadsLeaf(cap, s, t, more);
    } else if t.Group? {
      ReadsGroup(cap, s, t, more);
    } else {
      ReadsApplied(cap, s, t, more);
    }
  }

  lemma ReadsLeaf(cap: nat, s: State, t: Form, more: seq<Tok>)
    requires t.Leaf? && Ready(cap, s, t, more) && !At(s.(rest := more), OpenParen)
    ensures ParsePrimary(cap, s) == Parsed(Meaning(t), After(s, t, more))
  {
    hide Reserved, ParseCall, AllNoted;
    InFront(s, t.tok, more);
    if t.tok.Word? {
      OneNoted(s.names, t.tok.name);
    }
    NoneNoted(s.names);
  }

  lemma NoneNoted(names: seq<string>)
    ensures AllNoted(names, []) == names
  {
  }

  lemma {:induction false} ReadsGroup(cap: nat, s: State, t: Form, more: seq<Tok>)
    requires t.Group? && Ready(cap, s, t, more)
    ensures ParsePrimary(cap, s) == Parsed(Meaning(t), After(s, t, more))
    decreases t, 0
  {
    hide ParsePrimary, ParseExpr, Ends, AllNoted;
    var open, close := Punct(OpenParen), Punct(CloseParen);
    var tail := [close] + more;
    Regrouped([open] + Tokens(t.inner), [close], more);
    Regrouped([open], Tokens(t.inner), tail);
    InFront(s, open, Tokens(t.inner) + tail);
    var inner := Next(s).(depth := s.depth + 1);
    InFront(inner.(rest := tail), close, more);
    ClosersStop(inner.(rest := tail), CloseParen);
    ReadsForm(cap, inner, t.inner, tail);
    InFront(After(inner, t.inner, tail), close, more);
    GroupRead(cap, s, Meaning(t.inner), After(inner, t.inner, tail));
  }

  /** A whole form reads as the expression it means. */
  lemma {:induction false} ReadsForm(cap: nat, s: State, t: Form, more: seq<Tok>)
    requires Ready(cap, s, t, more) && Ends(s.(rest := more))
    ensures ParseExpr(cap, s) == Parsed(Meaning(t), After(s, t, more))
    decreases t, 20
  {
    hide ParseExpr, ParseLevel, Ready, Stops, Meaning, After;
    if t.Choose? {
      ReadsChoice(cap, s, t, more);
    } else {
      ReadsLevel(cap, 1, s, t, more);
      AfterIs(s, t, more);
      ExprUnfolds(cap, s);
    }
  }

  lemma AfterIs(s: State, t: Form, more: seq<Tok>)
    ensures After(s, t, more).rest == more
  {
  }

  lemma ChooseParts(t: Form)
    requires t.Choose?
    ensures Tokens(t) == Tokens(t.test) + [Punct(Query)] + Tokens(t.cons) + [Punct(Colon)] + Tokens(t.alt)
    ensures Nesting(t) == Max(Nesting(t.test), Max(Nesting(t.cons), Nesting(t.alt)))
    ensures Meaning(t) == Cond(Meaning(t.test), Meaning(t.cons), Meaning(t.alt))
    ensures Size(Meaning(t)) == 1 + Size(Meaning(t.test)) + Size(Meaning(t.cons)) + Size(Meaning(t.alt))
    ensures Grammatical(t) <==>
      Grammatical(t.test) && Tightness(t.test) >= 1 && Grammatical(t.cons) && Grammatical(t.alt)
  {
    hide Tightness, Callable, ArityFits, Reserved, Literal, OpSym, UnarySym, Rank;
  }

  lemma {:induction false} ReadsChoice(cap: nat, s: State, t: Form, more: seq<Tok>)
    requires t.Choose? && Ready(cap, s, t, more) && Ends(s.(rest := more))
    ensures ParseExpr(cap, s) == Parsed(Meaning(t), After(s, t, more))
    decreases t, 0
  {
    hide ParseExpr, ParseLevel, Ends, Stops, AllNoted, Tightness, Tokens, Meaning, Size, Identifiers, Nesting,
      Grammatical;
    ChooseParts(t);
    var query, colon := Punct(Query), Punct(Colon);
    var cons, alt := Tokens(t.cons), Tokens(t.alt);
    FiveRegrouped(Tokens(t.test), [query], cons, [colon], alt + more);
    Regrouped(Tokens(t.test) + [query] + cons + [colon], alt, more);
    var s1 := After(s, t.test, [query] + (cons + ([colon] + (alt + more))));
    InFront(s1, query, cons + ([colon] + (alt + more)));
    ClosersStop(s1, Query);
    EndsAnywhere(s1, s.(rest := s1.rest));
    ReadsLevel(cap, 1, s, t.test, s1.rest);
    var s2 := After(Next(s1), t.cons, [colon] + (alt + more));
    InFront(s2, colon, alt + more);
    ClosersStop(s2, Colon);
    EndsAnywhere(s2, Next(s1).(rest := s2.rest));
    ReadsForm(cap, Next(s1), t.cons, s2.rest);
    EndsAnywhere(s.(rest := more), Next(s2).(rest := more));
    ReadsForm(cap, Next(s2), t.alt, more);
    ChoiceNotes(s.names, Meaning(t.test), Meaning(t.cons), Meaning(t.alt));
    ExprUnfolds(cap, s);
  }

  lemma ChoiceNotes(names: seq<string>, test: Ast, cons: Ast, alt: Ast)
    ensures AllNoted(AllNoted(AllNoted(names, Identifiers(test)), Identifiers(cons)), Identifiers(alt))
         == AllNoted(names, Identifiers(Cond(test, cons, alt)))
  {
    hide AllNoted;
    NotedInTurn(names, Identifiers(test), Identifiers(cons));
    NotedInTurn(names, Identifiers(test) + Identifiers(cons), Identifiers(alt));
  }

  // ----- Calls -----

  ghost function AfterList(s: State, args: FormList, more: seq<Tok>): State {
    State(more, s.count + ArgsSize(Meanings(args)), s.depth, AllNoted(s.names, ArgsIdentifiers(Meanings(args))))
  }

  ghost predicate ListReady(cap: nat, s: State, args: FormList, more: seq<Tok>) {
    && s.rest == ListTokens(args) + more && ListGrammatical(args) && At(s.(rest := more), CloseParen)
    && s.count + ArgsSize(Meanings(args)) <= cap && s.depth + ListNesting(args) <= MAX_EXPRESSION_DEPTH
  }

  lemma {:induction false} ReadsArguments(cap: nat, s: State, args: FormList, more: seq<Tok>)
    requires args.OneMore? && ListReady(cap, s, args, more)
    ensures ParseArguments(cap, s) == ParsedArgs(Meanings(args), AfterList(s, args, more))
    decreases args, 0
  {
    hide ParseExpr, AllNoted, Ends;
    if args.tail.NoForms? {
      ClosersStop(s.(rest := more), CloseParen);
      ReadsForm(cap, s, args.head, more);
      assert Identifiers(Meaning(args.head)) + [] == Identifiers(Meaning(args.head));
    } else {
      var comma, rest := [Punct(Comma)], ListTokens(args.tail) + more;
      Regrouped(Tokens(args.head) + comma, ListTokens(args.tail), more);
      Regrouped(Tokens(args.head), comma, rest);
      var s1 := After(s, args.head, comma + rest);
      InFront(s1, Punct(Comma), rest);
      ClosersStop(s1, Comma);
      EndsAnywhere(s1, s.(rest := s1.rest));
      ReadsForm(cap, s, args.head, comma + rest);
      ReadsArguments(cap, Next(s1), args.tail, more);
      NotedInTurn(s.names, Identifiers(Meaning(args.head)), ArgsIdentifiers(Meanings(args.tail)));
    }
  }

  /** No form starts with a closing parenthesis. */
  lemma {:induction false} StartsOpen(t: Form)
    requires Grammatical(t)
    ensures Tokens(t)[0] != Punct(CloseParen)
  {
    hide Reserved, Callable, ArityFits, Literal, Tightness, Rank;
    match t
    case Dotted(obj, _) => StartsOpen(obj);
    case Indexed(obj, _) => StartsOpen(obj);
    case Infix(_, left, _) => StartsOpen(left);
    case Choose(test, _, _) => StartsOpen(test);
    case _ =>
  }

  lemma {:induction false} ReadsCallArgs(cap: nat, s: State, args: FormList, more: seq<Tok>)
    requires ListReady(cap, s, args, more)
    ensures ParseCall(cap, s) == ParsedArgs(Meanings(args), AfterList(s, args, more))
    decreases args, 1
  {
    hide ParseArguments, Tokens, Grammatical, Nesting, Meaning;
    if args.NoForms? {
      assert s.rest == more;
    } else {
      StartsOpen(args.head);
      ReadsArguments(cap, s, args, more);
      assert s.rest[0] == Tokens(args.head)[0];
    }
  }

  /** No builtin is a word the grammar refuses or takes for a literal. */
  lemma BuiltinsAreNames(name: string)
    requires Callable(name)
    ensures !Literal(name) && !Reserved(name)
  {
  }

  lemma {:induction false} ReadsApplied(cap: nat, s: State, t: Form, more: seq<Tok>)
    requires t.Applied? && Ready(cap, s, t, more)
    ensures ParsePrimary(cap, s) == Parsed(Meaning(t), After(s, t, more))
    decreases t, 0
  {
    hide ParseExpr, ParseCall, AllNoted, Reserved, Literal, BuiltinArity, ArityFits, ListGrammatical, ListTokens;
    var args, close := ListTokens(t.args), [Punct(CloseParen)];
    var word, open := Word(t.name), Punct(OpenParen);
    FiveRegrouped([word], [open], args, close, more);
    InFront(s, word, [open] + (args + (close + more)));
    InFront(Next(s), open, args + (close + more));
    var inner := Next(Next(s)).(depth := s.depth + 1);
    InFront(inner.(rest := close + more), Punct(CloseParen), more);
    ReadsCallArgs(cap, inner, t.args, close + more);
    InFront(AfterList(inner, t.args, close + more), Punct(CloseParen), more);
    BuiltinsAreNames(t.name);
  }
}
