/**
 Whatever the grammar of crates/xript-expr/src/parser.rs reads is a grammatical form, so that the parser
 accepts exactly the token lists of grammatical forms and gives exactly what they mean.
 */
module FormDerivation {
  import opened Prelude
  import opened Expressions
  import opened Grammar
  import opened ExpressionParser
  import opened Forms
  import opened FormReading

  /** What was read from `s` to `r` is the form, which binds at least as tightly as the level. */
  ghost predicate Derives(t: Form, level: nat, s: State, a: Ast, r: State) {
    && Grammatical(t) && Tightness(t) >= level && Meaning(t) == a
    && s.rest == Tokens(t) + r.rest && r.depth == s.depth
    && (s.depth <= MAX_EXPRESSION_DEPTH ==> s.depth + Nesting(t) <= MAX_EXPRESSION_DEPTH)
  }

  ghost predicate DerivesList(args: FormList, s: State, read: Args, r: State) {
    && ListGrammatical(args) && Meanings(args) == read && s.rest == ListTokens(args) + r.rest && r.depth == s.depth
    && (s.depth <= MAX_EXPRESSION_DEPTH ==> s.depth + ListNesting(args) <= MAX_EXPRESSION_DEPTH)
  }

  lemma Split(s: State)
    requires s.rest != []
    ensures s.rest == [s.rest[0]] + Next(s).rest
  {
  }

  /** An operator is found at its own rank only. */
  lemma FoundAtItsRank(level: nat, s: State)
    requires OpAt(level, s).Some?
    ensures s.rest != [] && s.rest[0] == Punct(OpSym(OpAt(level, s).value)) && Rank(OpAt(level, s).value) == level
  {
  }

  // ----- One step of a derivation -----

  lemma DerivesChoice(test: Form, s: State, s1: State, cons: Form, s2: State, alt: Form, s3: State, r: State)
    requires Derives(test, 1, s, Meaning(test), s1) && At(s1, Query)
    requires Derives(cons, 0, Next(s1), Meaning(cons), s2) && At(s2, Colon)
    requires Derives(alt, 0, Next(s2), Meaning(alt), s3) && r.rest == s3.rest && r.depth == s3.depth
    ensures Derives(Choose(test, cons, alt), 0, s, Cond(Meaning(test), Meaning(cons), Meaning(alt)), r)
  {
    hide Tokens, Meaning, Nesting, Grammatical, Tightness;
    Split(s1);
    Split(s2);
    var t := Choose(test, cons, alt);
    ChooseParts(t);
    FiveRegrouped(Tokens(test), [Punct(Query)], Tokens(cons), [Punct(Colon)], Tokens(alt) + r.rest);
    Regrouped(Tokens(test) + [Punct(Query)] + Tokens(cons) + [Punct(Colon)], Tokens(alt), r.rest);
  }

  lemma DerivesInfix(op: Op, left: Form, s: State, s1: State, right: Form, s2: State, r: State)
    requires Derives(left, Rank(op), s, Meaning(left), s1) && s1.rest != [] && s1.rest[0] == Punct(OpSym(op))
    requires Derives(right, Rank(op) + 1, Next(s1), Meaning(right), s2) && r.rest == s2.rest && r.depth == s2.depth
    ensures Derives(Infix(op, left, right), Rank(op), s, Joined(op, Meaning(left), Meaning(right)), r)
  {
    hide Tokens, Meaning, Nesting, Grammatical, Tightness, Rank, OpSym, Joined;
    Split(s1);
    var t := Infix(op, left, right);
    InfixParts(t);
    Regrouped(Tokens(left) + [Punct(OpSym(op))], Tokens(right), r.rest);
    Regrouped(Tokens(left), [Punct(OpSym(op))], Tokens(right) + r.rest);
  }

  lemma DerivesPrefixed(op: UnaryOp, s: State, arg: Form, s1: State, r: State)
    requires s.rest != [] && s.rest[0] == Punct(UnarySym(op)) && s1.rest == Next(s).rest && s1.depth == s.depth
    requires Derives(arg, 8, s1, Meaning(arg), r)
    ensures Derives(Prefixed(op, arg), 8, s, Unary(op, Meaning(arg)), r)
  {
    hide UnarySym;
    Split(s);
    Regrouped([Punct(UnarySym(op))], Tokens(arg), r.rest);
  }

  lemma DerivesDotted(obj: Form, s: State, s1: State, member: string, r: State)
    requires Derives(obj, 9, s, Meaning(obj), s1) && At(s1, Dot) && |s1.rest| >= 2 && s1.rest[1] == Word(member)
    requires r.rest == Next(Next(s1)).rest && r.depth == s1.depth
    ensures Derives(Dotted(obj, member), 9, s, Member(Meaning(obj), member), r)
  {
    Split(s1);
    Split(Next(s1));
    Regrouped(Tokens(obj) + [Punct(Dot)], [Word(member)], r.rest);
    Regrouped(Tokens(obj), [Punct(Dot)], [Word(member)] + r.rest);
  }

  lemma DerivesIndexed(obj: Form, s: State, s1: State, index: Form, s2: State, s3: State, r: State)
    requires Derives(obj, 9, s, Meaning(obj), s1) && At(s1, OpenBracket)
    requires s2 == Next(s1).(depth := s1.depth + 1) && s2.depth <= MAX_EXPRESSION_DEPTH
    requires Derives(index, 0, s2, Meaning(index), s3) && At(s3, CloseBracket)
    requires r.rest == Next(s3).rest && r.depth == s1.depth
    ensures Derives(Indexed(obj, index), 9, s, Index(Meaning(obj), Meaning(index)), r)
  {
    hide Tokens, Meaning, Nesting, Grammatical;
    Split(s1);
    Split(s3);
    var t := Indexed(obj, index);
    IndexedParts(t);
    FiveRegrouped(Tokens(obj), [Punct(OpenBracket)], Tokens(index), [Punct(CloseBracket)], r.rest);
  }

  lemma DerivesGroup(inner: Form, s: State, s1: State, s2: State, r: State)
    requires At(s, OpenParen) && s1 == Next(s).(depth := s.depth + 1) && s1.depth <= MAX_EXPRESSION_DEPTH
    requires Derives(inner, 0, s1, Meaning(inner), s2) && At(s2, CloseParen)
    requires r.rest == Next(s2).rest && r.depth == s.depth
    ensures Derives(Group(inner), 10, s, Meaning(inner), r)
  {
    Split(s);
    Split(s2);
    Regrouped([Punct(OpenParen)] + Tokens(inner), [Punct(CloseParen)], r.rest);
    Regrouped([Punct(OpenParen)], Tokens(inner), [Punct(CloseParen)] + r.rest);
  }

  // ----- The parser, function by function -----

  lemma {:induction false} DerivedExpr(cap: nat, s: State) returns (t: Form)
    requires ParseExpr(cap, s).Parsed?
    ensures Derives(t, 0, s, ParseExpr(cap, s).ast, ParseExpr(cap, s).state)
    decreases |s.rest|, 12
  {
    hide ParseExpr, ParseLevel, Derives;
    ExprUnfolds(cap, s);
    var test := DerivedLevel(cap, 1, s);
    var s1 := ParseLevel(cap, 1, s).state;
    if !At(s1, Query) {
      t := test;
      Looser(t, 1, 0, s, ParseLevel(cap, 1, s).ast, s1);
    } else {
      var cons := DerivedExpr(cap, Next(s1));
      var s2 := ParseExpr(cap, Next(s1)).state;
      var alt := DerivedExpr(cap, Next(s2));
      var s3 := ParseExpr(cap, Next(s2)).state;
      t := Choose(test, cons, alt);
      MeaningOf(test, 1, s, ParseLevel(cap, 1, s).ast, s1);
      MeaningOf(cons, 0, Next(s1), ParseExpr(cap, Next(s1)).ast, s2);
      MeaningOf(alt, 0, Next(s2), ParseExpr(cap, Next(s2)).ast, s3);
      DerivesChoice(test, s, s1, cons, s2, alt, s3, ParseExpr(cap, s).state);
    }
  }

  lemma Looser(t: Form, level: nat, looser: nat, s: State, a: Ast, r: State)
    requires Derives(t, level, s, a, r) && looser <= level
    ensures Derives(t, looser, s, a, r)
  {
  }

  lemma MeaningOf(t: Form, level: nat, s: State, a: Ast, r: State)
    requires Derives(t, level, s, a, r)
    ensures Meaning(t) == a
  {
  }

  lemma {:induction false} DerivedLevel(cap: nat, level: nat, s: State) returns (t: Form)
    requires 1 <= level <= 8 && ParseLevel(cap, level, s).Parsed?
    ensures Derives(t, level, s, ParseLevel(cap, level, s).ast, ParseLevel(cap, level, s).state)
    decreases |s.rest|, 11 - level, 1
  {
    hide ParseUnary, ParseMore, Derives, Extends, Keeps;
    if level == 8 {
      t := DerivedUnary(cap, s);
    } else {
      var left := DerivedLevel(cap, level + 1, s);
      var p := ParseLevel(cap, level + 1, s);
      LevelUnfolds(cap, level, s, p.ast, p.state);
      Looser(left, level + 1, level, s, p.ast, p.state);
      Shorter(cap, level + 1, s);
      t := DerivedMore(cap, level, s, left, p.ast, p.state);
    }
  }

  lemma Shorter(cap: nat, level: nat, s: State)
    requires 1 <= level <= 8 && ParseLevel(cap, level, s).Parsed?
    ensures |ParseLevel(cap, level, s).state.rest| < |s.rest|
  {
    hide ParseLevel;
  }

  /** The chain read so far is `left`, from `from` up to `s`. */
  lemma {:induction false} DerivedMore(cap: nat, level: nat, from: State, left: Form, a: Ast, s: State)
    returns (t: Form)
    requires 1 <= level <= 7 && Derives(left, level, from, a, s) && ParseMore(cap, level, a, s).Parsed?
    ensures Derives(t, level, from, ParseMore(cap, level, a, s).ast, ParseMore(cap, level, a, s).state)
    decreases |s.rest|, 11 - level, 0
  {
    hide ParseLevel, Derives, Extends, Keeps, OpAt, Joined, Rank, OpSym;
    if OpAt(level, s).None? {
      t := left;
    } else {
      FoundAtItsRank(level, s);
      var op := OpAt(level, s).value;
      var right := DerivedLevel(cap, level + 1, Next(s));
      var p := ParseLevel(cap, level + 1, Next(s));
      Shorter(cap, level + 1, Next(s));
      var whole := Infix(op, left, right);
      MeaningOf(left, level, from, a, s);
      MeaningOf(right, level + 1, Next(s), p.ast, p.state);
      MoreJoins(cap, level, a, s, op, p.ast, p.state);
      var s2 := p.state.(count := p.state.count + 1);
      DerivesInfix(op, left, from, s, right, p.state, s2);
      t := DerivedMore(cap, level, from, whole, Joined(op, a, p.ast), s2);
    }
  }

  lemma {:induction false} DerivedUnary(cap: nat, s: State) returns (t: Form)
    requires ParseUnary(cap, s).Parsed?
    ensures Derives(t, 8, s, ParseUnary(cap, s).ast, ParseUnary(cap, s).state)
    decreases |s.rest|, 3, 0
  {
    hide ParsePostfix, Derives, Keeps;
    if UnaryAt(s).None? {
      t := DerivedPostfix(cap, s);
      Looser(t, 9, 8, s, ParsePostfix(cap, s).ast, ParsePostfix(cap, s).state);
    } else {
      var op, s1 := UnaryAt(s).value, Next(s).(count := s.count + 1);
      var arg := DerivedUnary(cap, s1);
      var p := ParseUnary(cap, s1);
      MeaningOf(arg, 8, s1, p.ast, p.state);
      t := Prefixed(op, arg);
      DerivesPrefixed(op, s, arg, s1, p.state);
    }
  }

  lemma {:induction false} DerivedPostfix(cap: nat, s: State) returns (t: Form)
    requires ParsePostfix(cap, s).Parsed?
    ensures Derives(t, 9, s, ParsePostfix(cap, s).ast, ParsePostfix(cap, s).state)
    decreases |s.rest|, 2, 0
  {
    hide ParsePrimary, ParseSuffixes, Derives, Extends;
    var p := ParsePrimary(cap, s);
    var target := DerivedPrimary(cap, s);
    PostfixUnfolds(cap, s, p.ast, p.state);
    Looser(target, 10, 9, s, p.ast, p.state);
    t := DerivedSuffixes(cap, s, target, p.ast, p.state);
  }

  lemma {:induction false} DerivedSuffixes(cap: nat, from: State, target: Form, a: Ast, s: State) returns (t: Form)
    requires Derives(target, 9, from, a, s) && |s.rest| < |from.rest| && ParseSuffixes(cap, a, s).Parsed?
    ensures Derives(t, 9, from, ParseSuffixes(cap, a, s).ast, ParseSuffixes(cap, a, s).state)
    decreases |s.rest|, 1, 0
  {
    hide ParseSuffix, Derives, Extends;
    if ParseSuffix(cap, a, s).None? {
      t := target;
    } else {
      var p := ParseSuffix(cap, a, s).value;
      var longer := DerivedSuffix(cap, from, target, a, s);
      SuffixesGoOn(cap, a, s, p.ast, p.state);
      t := DerivedSuffixes(cap, from, longer, p.ast, p.state);
    }
  }

  lemma {:induction false} DerivedSuffix(cap: nat, from: State, target: Form, a: Ast, s: State) returns (t: Form)
    requires Derives(target, 9, from, a, s) && ParseSuffix(cap, a, s).Some? && ParseSuffix(cap, a, s).value.Parsed?
    ensures Derives(t, 9, from, ParseSuffix(cap, a, s).value.ast, ParseSuffix(cap, a, s).value.state)
    decreases |s.rest|, 0, 1
  {
    hide ParseExpr, ParseSuffix, Derives, Extends;
    if !At(s, Dot) && !At(s, OpenBracket) {
      NoSuffix(cap, a, s);
    }
    SuffixUnfolds(cap, a, s);
    MeaningOf(target, 9, from, a, s);
    var r := ParseSuffix(cap, a, s).value.state;
    if At(s, Dot) {
      t := Dotted(target, s.rest[1].name);
      DerivesDotted(target, from, s, s.rest[1].name, r);
    } else {
      var s1 := Next(s).(depth := s.depth + 1);
      var index := DerivedExpr(cap, s1);
      var p := ParseExpr(cap, s1);
      MeaningOf(index, 0, s1, p.ast, p.state);
      t := Indexed(target, index);
      DerivesIndexed(target, from, s, index, s1, p.state, r);
    }
  }

  lemma {:induction false} DerivedPrimary(cap: nat, s: State) returns (t: Form)
    requires ParsePrimary(cap, s).Parsed?
    ensures Derives(t, 10, s, ParsePrimary(cap, s).ast, ParsePrimary(cap, s).state)
    decreases |s.rest|, 1, 1
  {
    hide ParseExpr, ParseWord, Derives;
    Split(s);
    var r := ParsePrimary(cap, s).state;
    if s.rest[0].Word? {
      t := DerivedWord(cap, s, s.rest[0].name);
    } else if s.rest[0].Punct? {
      var s1 := Next(s).(depth := s.depth + 1);
      var inner := DerivedExpr(cap, s1);
      MeaningOf(inner, 0, s1, ParseExpr(cap, s1).ast, ParseExpr(cap, s1).state);
      t := Group(inner);
      DerivesGroup(inner, s, s1, ParseExpr(cap, s1).state, r);
    } else {
      t := Leaf(s.rest[0]);
      LeafDerives(s, r);
    }
  }

  lemma LeafDerives(s: State, r: State)
    requires s.rest != [] && !s.rest[0].Punct? && r.rest == Next(s).rest && r.depth == s.depth
    requires s.rest[0].Word? ==> Literal(s.rest[0].name) || !Reserved(s.rest[0].name)
    ensures Derives(Leaf(s.rest[0]), 10, s, Meaning(Leaf(s.rest[0])), r)
  {
    hide Reserved;
    Split(s);
  }

  lemma {:induction false} DerivedWord(cap: nat, s: State, name: string) returns (t: Form)
    requires s.rest != [] && s.rest[0] == Word(name) && ParseWord(cap, name, Next(s)).Parsed?
    ensures Derives(t, 10, s, ParseWord(cap, name, Next(s)).ast, ParseWord(cap, name, Next(s)).state)
    decreases |s.rest|, 0, 0
  {
    hide ParseCall, Derives, Reserved, ArityFits, Callable, AllNoted, Noted, Identifiers;
    var s1, r := Next(s), ParseWord(cap, name, Next(s)).state;
    if Literal(name) || !At(s1, OpenParen) {
      t := Leaf(Word(name));
      LeafDerives(s, r);
    } else {
      var s2 := Next(s1).(depth := s1.depth + 1);
      var args := DerivedCall(cap, s2);
      t := Applied(name, args);
      DerivesApplied(name, args, s, s1, s2, ParseCall(cap, s2).args, ParseCall(cap, s2).state, r);
    }
  }

  lemma DerivesApplied(
    name: string, args: FormList, s: State, s1: State, s2: State, read: Args, s3: State, r: State)
    requires s.rest != [] && s.rest[0] == Word(name) && s1 == Next(s) && At(s1, OpenParen)
    requires s2 == Next(s1).(depth := s1.depth + 1) && s2.depth <= MAX_EXPRESSION_DEPTH
    requires DerivesList(args, s2, read, s3) && At(s3, CloseParen) && r.rest == Next(s3).rest && r.depth == s.depth
    requires Callable(name) && ArityFits(name, Count(read))
    ensures Derives(Applied(name, args), 10, s, Call(name, read), r)
  {
    hide Callable, ArityFits;
    Split(s);
    Split(s1);
    Split(s3);
    FiveRegrouped([Word(name)], [Punct(OpenParen)], ListTokens(args), [Punct(CloseParen)], r.rest);
  }

  lemma {:induction false} DerivedCall(cap: nat, s: State) returns (args: FormList)
    requires ParseCall(cap, s).ParsedArgs?
    ensures DerivesList(args, s, ParseCall(cap, s).args, ParseCall(cap, s).state)
    decreases |s.rest|, 13, 1
  {
    hide ParseArguments, DerivesList;
    if At(s, CloseParen) {
      args := NoForms;
      NoneDerives(s);
    } else {
      args := DerivedArguments(cap, s);
    }
  }

  lemma NoneDerives(s: State)
    ensures DerivesList(NoForms, s, NoArgs, s)
  {
    assert [] + s.rest == s.rest;
  }

  lemma {:induction false} DerivedArguments(cap: nat, s: State) returns (args: FormList)
    requires ParseArguments(cap, s).ParsedArgs?
    ensures args.OneMore? && DerivesList(args, s, ParseArguments(cap, s).args, ParseArguments(cap, s).state)
    decreases |s.rest|, 13, 0
  {
    hide ParseExpr, Derives, DerivesList;
    var p := ParseExpr(cap, s);
    var head := DerivedExpr(cap, s);
    if !At(p.state, Comma) {
      args := OneMore(head, NoForms);
      OneDerives(head, s, p.ast, p.state);
    } else {
      var s1 := Next(p.state);
      var tail := DerivedArguments(cap, s1);
      args := OneMore(head, tail);
      MoreDerives(head, s, p.ast, p.state, tail, ParseArguments(cap, s1).args, ParseArguments(cap, s1).state);
    }
  }

  lemma OneDerives(head: Form, s: State, a: Ast, r: State)
    requires Derives(head, 0, s, a, r)
    ensures DerivesList(OneMore(head, NoForms), s, Arg(a, NoArgs), r)
  {
    hide Grammatical, Tokens, Meaning, Nesting;
    assert ListNesting(NoForms) == 0 && Meanings(NoForms) == NoArgs && ListGrammatical(NoForms);
  }

  lemma MoreDerives(head: Form, s: State, a: Ast, s1: State, tail: FormList, read: Args, r: State)
    requires Derives(head, 0, s, a, s1) && At(s1, Comma) && tail.OneMore? && DerivesList(tail, Next(s1), read, r)
    ensures DerivesList(OneMore(head, tail), s, Arg(a, read), r)
  {
    hide Grammatical, Tokens, Meaning, Nesting;
    Split(s1);
    Regrouped(Tokens(head) + [Punct(Comma)], ListTokens(tail), r.rest);
    Regrouped(Tokens(head), [Punct(Comma)], ListTokens(tail) + r.rest);
  }

  // ----- The language of the parser -----

  /** The form spells the tokens, means the expression and stays within the caps. */
  ghost predicate Spells(t: Form, tokens: seq<Tok>, cap: nat, a: Ast) {
    && Grammatical(t) && Tokens(t) == tokens && Meaning(t) == a
    && Size(a) <= cap && Nesting(t) <= MAX_EXPRESSION_DEPTH
  }

  lemma FormIsRead(t: Form, cap: nat)
    requires Grammatical(t) && Size(Meaning(t)) <= cap && Nesting(t) <= MAX_EXPRESSION_DEPTH
    ensures Read(Tokens(t), cap) == Some(Meaning(t))
  {
    hide ParseExpr, Tokens, Grammatical, Meaning, Nesting, AllNoted;
    var s := State(Tokens(t), 0, 0, []);
    assert Tokens(t) + [] == Tokens(t);
    ReadsForm(cap, s, t, []);
  }

  /** A token list parses to an expression exactly when some grammatical form within the caps spells it so. */
  lemma ReadsExactlyTheForms(tokens: seq<Tok>, cap: nat, a: Ast)
    ensures Read(tokens, cap) == Some(a) <==> exists t :: Spells(t, tokens, cap, a)
  {
    hide ParseExpr, Tokens, Grammatical, Meaning, Nesting;
    if Read(tokens, cap) == Some(a) {
      var s := State(tokens, 0, 0, []);
      var t := DerivedExpr(cap, s);
      assert Tokens(t) + [] == Tokens(t);
      assert Spells(t, tokens, cap, a);
    }
    forall t | Spells(t, tokens, cap, a) ensures Read(tokens, cap) == Some(a) {
      FormIsRead(t, cap);
    }
  }

  /** Tokens mean one thing, whatever parentheses they carry. */
  lemma FormsAreUnambiguous(t: Form, u: Form)
    requires Grammatical(t) && Grammatical(u) && Tokens(t) == Tokens(u)
    requires Nesting(t) <= MAX_EXPRESSION_DEPTH && Nesting(u) <= MAX_EXPRESSION_DEPTH
    ensures Meaning(t) == Meaning(u)
  {
    hide Tokens, Grammatical, Meaning, Nesting, Read;
    var cap := Max(Size(Meaning(t)), Size(Meaning(u)));
    FormIsRead(t, cap);
    FormIsRead(u, cap);
  }

  /** Every expression, written with all parentheses or only with those it needs, parses back to itself. */
  lemma RoundTrips(a: Ast, cap: nat, all: bool)
    requires WellFormed(a) && Size(a) <= cap && Nesting(FormOf(a, all)) <= MAX_EXPRESSION_DEPTH
    ensures Read(Tokens(FormOf(a, all)), cap) == Some(a)
  {
    hide Tokens, Grammatical, Meaning, Nesting, Read, FormOf, WellFormed;
    FormMeans(a, all);
    FormIsRead(FormOf(a, all), cap);
  }

  /** A token that is an expression by itself. */
  ghost predicate Plain(tok: Tok) { Grammatical(Leaf(tok)) }

  lemma LeafIs(tok: Tok)
    requires Plain(tok)
    ensures Tokens(Leaf(tok)) == [tok] && Nesting(Leaf(tok)) == 0 && Tightness(Leaf(tok)) == 10
    ensures Size(Meaning(Leaf(tok))) == 1
  {
  }

  /** Without parentheses, of two operators the tighter binds first, and of two as tight the left one. */
  lemma TighterBindsFirst(p: Op, q: Op, a: Tok, b: Tok, c: Tok, cap: nat)
    requires Plain(a) && Plain(b) && Plain(c) && cap >= 5
    ensures var x, y, z := Meaning(Leaf(a)), Meaning(Leaf(b)), Meaning(Leaf(c));
      Read([a, Punct(OpSym(p)), b, Punct(OpSym(q)), c], cap)
      == Some(if Rank(p) >= Rank(q) then Joined(q, Joined(p, x, y), z) else Joined(p, x, Joined(q, y, z)))
  {
    hide Tokens, Grammatical, Meaning, Nesting, Tightness, Size, Read, Rank, OpSym, Joined;
    LeafIs(a);
    LeafIs(b);
    LeafIs(c);
    var ps, qs := Punct(OpSym(p)), Punct(OpSym(q));
    if Rank(p) >= Rank(q) {
      InfixParts(Infix(p, Leaf(a), Leaf(b)));
      InfixParts(Infix(q, Infix(p, Leaf(a), Leaf(b)), Leaf(c)));
      FormIsRead(Infix(q, Infix(p, Leaf(a), Leaf(b)), Leaf(c)), cap);
      assert [a] + [ps] + [b] + [qs] + [c] == [a, ps, b, qs, c];
    } else {
      InfixParts(Infix(q, Leaf(b), Leaf(c)));
      InfixParts(Infix(p, Leaf(a), Infix(q, Leaf(b), Leaf(c))));
      FormIsRead(Infix(p, Leaf(a), Infix(q, Leaf(b), Leaf(c))), cap);
      assert [a] + [ps] + ([b] + [qs] + [c]) == [a, ps, b, qs, c];
    }
  }
}
